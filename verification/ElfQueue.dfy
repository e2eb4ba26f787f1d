/**
 Loading a trusted application and the libraries it needs: a queue of modules
 that grows while it is walked. Err is the loader giving up.
 */
module ElfQueue {

  type Uuid = nat

  /** A DT_NEEDED entry: its name may lie outside the string table or not be a UUID. */
  datatype Needed = Lib(uuid: Uuid) | Malformed

  /** The NEEDED entries of each dynamic segment, in program header order. */
  datatype Binary = Binary(is32: bool, dynamic: seq<seq<Needed>>)

  type Binaries = map<Uuid, Binary>

  datatype Outcome = Done(queue: seq<Uuid>) | Err

  predicate NoDuplicates(q: seq<Uuid>) {
    forall i, j :: 0 <= i < j < |q| ==> q[i] != q[j]
  }

  // ------------------------------------------------------------ one module

  function Enqueue(q: seq<Uuid>, u: Uuid): (r: seq<Uuid>)
    ensures q <= r && u in r
    ensures forall v :: v in r <==> v in q || v == u
    ensures NoDuplicates(q) ==> NoDuplicates(r)
  {
    if u in q then q else q + [u]
  }

  function EnqueueAll(q: seq<Uuid>, ns: seq<Needed>): Outcome
    decreases |ns|
  {
    if ns == [] then Done(q)
    else if ns[0].Malformed? then Err
    else EnqueueAll(Enqueue(q, ns[0].uuid), ns[1..])
  }

  function Flatten(ds: seq<seq<Needed>>): seq<Needed> {
    if ds == [] then [] else ds[0] + Flatten(ds[1..])
  }

  /** Does this binary name that library? */
  predicate Names(b: Binary, u: Uuid) {
    Lib(u) in Flatten(b.dynamic)
  }

  predicate WellFormed(b: Binary) {
    Malformed !in Flatten(b.dynamic)
  }

  /** All names are queued once, behind what is there; a malformed entry is an error. */
  lemma {:induction false} EnqueueAllMeaning(q: seq<Uuid>, ns: seq<Needed>)
    ensures EnqueueAll(q, ns).Done? <==> Malformed !in ns
    ensures EnqueueAll(q, ns).Done? ==>
              var r := EnqueueAll(q, ns).queue;
              && q <= r
              && (forall v :: v in r <==> v in q || Lib(v) in ns)
              && (NoDuplicates(q) ==> NoDuplicates(r))
    decreases |ns|
  {
    if ns != [] {
      assert ns == [ns[0]] + ns[1..];
      if ns[0].Lib? { EnqueueAllMeaning(Enqueue(q, ns[0].uuid), ns[1..]); }
    }
  }

  // ------------------------------------------------------------- the worklist

  /** The modules before i are loaded; load the rest, and what they bring in. */
  function LoadFrom(bins: Binaries, is32: bool, q: seq<Uuid>, i: nat): Outcome
    requires NoDuplicates(q) && i <= |q| && forall j :: 0 <= j < i ==> q[j] in bins
    decreases |bins.Keys| - i
  {
    if i == |q| then Done(q)
    else if q[i] !in bins || bins[q[i]].is32 != is32 then Err
    else
      EnqueueAllMeaning(q, Flatten(bins[q[i]].dynamic));
      FewerThanBinaries(bins, q, i + 1);
      match EnqueueAll(q, Flatten(bins[q[i]].dynamic))
      case Err => Err
      case Done(more) => LoadFrom(bins, is32, more, i + 1)
  }

  lemma FewerThanBinaries(bins: Binaries, q: seq<Uuid>, n: nat)
    requires NoDuplicates(q) && n <= |q| && forall j :: 0 <= j < n ==> q[j] in bins
    ensures n <= |bins.Keys|
  {
    DistinctCount(q[..n], bins.Keys);
  }

  lemma {:induction false} DistinctCount(q: seq<Uuid>, s: set<Uuid>)
    requires NoDuplicates(q) && forall j :: 0 <= j < |q| ==> q[j] in s
    ensures |q| <= |s|
    decreases |q|
  {
    if q != [] {
      var last := q[|q| - 1];
      DistinctCount(q[..|q| - 1], s - {last});
    }
  }

  /** The trusted application itself decides between 32 and 64 bits. */
  function LoadMain(bins: Binaries, main: Uuid): Outcome {
    if main !in bins then Err else LoadFrom(bins, bins[main].is32, [main], 0)
  }

  function AddLibrary(bins: Binaries, is32: bool, q: seq<Uuid>, lib: Uuid): Outcome
    requires NoDuplicates(q) && forall j :: 0 <= j < |q| ==> q[j] in bins
  {
    if lib in q then Done(q) else LoadFrom(bins, is32, q + [lib], |q|)
  }

  // ------------------------------------------------------------- reachability

  predicate Edge(bins: Binaries, u: Uuid, v: Uuid) {
    u in bins && Names(bins[u], v)
  }

  predicate IsPath(bins: Binaries, p: seq<Uuid>) {
    p != [] && forall k :: 0 <= k < |p| - 1 ==> Edge(bins, p[k], p[k + 1])
  }

  ghost predicate Reachable(bins: Binaries, u: Uuid, v: Uuid) {
    exists p :: IsPath(bins, p) && p[0] == u && p[|p| - 1] == v
  }

  lemma ReachesItself(bins: Binaries, u: Uuid)
    ensures Reachable(bins, u, u)
  {
    assert IsPath(bins, [u]) && [u][0] == u;
  }

  lemma ReachesFurther(bins: Binaries, u: Uuid, v: Uuid, w: Uuid)
    requires Reachable(bins, u, v) && Edge(bins, v, w)
    ensures Reachable(bins, u, w)
  {
    var p :| IsPath(bins, p) && p[0] == u && p[|p| - 1] == v;
    var longer := p + [w];
    forall k | 0 <= k < |longer| - 1 ensures Edge(bins, longer[k], longer[k + 1]) {
      if k < |p| - 1 { assert Edge(bins, p[k], p[k + 1]); }
    }
    assert IsPath(bins, longer) && longer[0] == u && longer[|longer| - 1] == w;
  }

  /** What the first i modules need is queued. */
  ghost predicate ClosedUpTo(bins: Binaries, q: seq<Uuid>, i: nat) {
    forall j, v :: 0 <= j < i && j < |q| && Edge(bins, q[j], v) ==> v in q
  }

  lemma {:induction false} ClosedHoldsPath(bins: Binaries, q: seq<Uuid>, p: seq<Uuid>, k: nat)
    requires ClosedUpTo(bins, q, |q|) && IsPath(bins, p) && p[0] in q && k < |p|
    ensures p[k] in q
    decreases k
  {
    if k > 0 {
      ClosedHoldsPath(bins, q, p, k - 1);
      assert Edge(bins, p[k - 1], p[k - 1 + 1]);
    }
  }

  lemma ClosedHoldsAll(bins: Binaries, q: seq<Uuid>, u: Uuid, v: Uuid)
    requires ClosedUpTo(bins, q, |q|) && u in q && Reachable(bins, u, v)
    ensures v in q
  {
    var p :| IsPath(bins, p) && p[0] == u && p[|p| - 1] == v;
    ClosedHoldsPath(bins, q, p, |p| - 1);
  }

  // ------------------------------------------------------------- what is loaded

  /** Loading gets through this module. */
  predicate Good(bins: Binaries, is32: bool, u: Uuid) {
    u in bins && bins[u].is32 == is32 && WellFormed(bins[u])
  }

  ghost predicate FromSome(bins: Binaries, q: seq<Uuid>, v: Uuid) {
    exists u :: u in q && Reachable(bins, u, v)
  }

  predicate GoodUpTo(bins: Binaries, is32: bool, q: seq<Uuid>, i: nat)
    requires i <= |q|
  {
    forall j :: 0 <= j < i ==> Good(bins, is32, q[j])
  }

  /** The queue r grew from the roots: it starts with them and holds only what they reach. */
  ghost predicate GrewFrom(bins: Binaries, roots: seq<Uuid>, r: seq<Uuid>) {
    roots <= r && forall v :: v in r ==> FromSome(bins, roots, v)
  }

  lemma OneTurn(bins: Binaries, roots: seq<Uuid>, q: seq<Uuid>, i: nat, more: seq<Uuid>)
    requires i < |q| && q[i] in bins && ClosedUpTo(bins, q, i) && GrewFrom(bins, roots, q)
    requires EnqueueAll(q, Flatten(bins[q[i]].dynamic)) == Done(more)
    ensures q <= more && ClosedUpTo(bins, more, i + 1) && GrewFrom(bins, roots, more)
  {
    EnqueueAllMeaning(q, Flatten(bins[q[i]].dynamic));
    forall v | v in more ensures FromSome(bins, roots, v) {
      if v !in q {
        assert FromSome(bins, roots, q[i]);
        var u :| u in roots && Reachable(bins, u, q[i]);
        assert Edge(bins, q[i], v);
        ReachesFurther(bins, u, q[i], v);
      }
    }
    forall j, v | 0 <= j < i + 1 && j < |more| && Edge(bins, more[j], v) ensures v in more {
      assert more[j] == q[j];
    }
  }

  /** The queue holds exactly what the roots reach. */
  ghost predicate Closure(bins: Binaries, roots: seq<Uuid>, r: seq<Uuid>) {
    forall v :: v in r <==> FromSome(bins, roots, v)
  }

  ghost predicate SomeBad(bins: Binaries, is32: bool, roots: seq<Uuid>) {
    exists v :: FromSome(bins, roots, v) && !Good(bins, is32, v)
  }

  /** From queue q on: all that the roots reach is loaded once, or some of it cannot be loaded. */
  ghost predicate Complete(bins: Binaries, is32: bool, roots: seq<Uuid>, q: seq<Uuid>, r: Outcome) {
    match r
    case Done(all) =>
      && q <= all && NoDuplicates(all) && Closure(bins, roots, all)
      && ClosedUpTo(bins, all, |all|) && GoodUpTo(bins, is32, all, |all|)
    case Err => SomeBad(bins, is32, roots)
  }

  lemma NothingLeft(bins: Binaries, roots: seq<Uuid>, q: seq<Uuid>)
    requires ClosedUpTo(bins, q, |q|) && GrewFrom(bins, roots, q)
    ensures Closure(bins, roots, q)
  {
    forall v | FromSome(bins, roots, v) ensures v in q {
      var u :| u in roots && Reachable(bins, u, v);
      assert u in q;
      ClosedHoldsAll(bins, q, u, v);
    }
  }

  lemma CompleteFromLater(bins: Binaries, is32: bool, roots: seq<Uuid>, q: seq<Uuid>, more: seq<Uuid>, r: Outcome)
    requires q <= more && Complete(bins, is32, roots, more, r)
    ensures Complete(bins, is32, roots, q, r)
  {
  }

  lemma LoadNext(bins: Binaries, is32: bool, q: seq<Uuid>, i: nat, more: seq<Uuid>)
    requires NoDuplicates(q) && i < |q| && GoodUpTo(bins, is32, q, i + 1)
    requires EnqueueAll(q, Flatten(bins[q[i]].dynamic)) == Done(more)
    ensures q <= more && NoDuplicates(more) && GoodUpTo(bins, is32, more, i + 1) && i < |bins.Keys|
    ensures LoadFrom(bins, is32, q, i) == LoadFrom(bins, is32, more, i + 1)
  {
    EnqueueAllMeaning(q, Flatten(bins[q[i]].dynamic));
    FewerThanBinaries(bins, q, i + 1);
  }

  lemma LoadStops(bins: Binaries, is32: bool, q: seq<Uuid>, i: nat)
    requires NoDuplicates(q) && i < |q| && GoodUpTo(bins, is32, q, i) && !Good(bins, is32, q[i])
    ensures LoadFrom(bins, is32, q, i) == Err
  {
    if q[i] in bins { EnqueueAllMeaning(q, Flatten(bins[q[i]].dynamic)); }
  }

  lemma BadRoot(bins: Binaries, is32: bool, roots: seq<Uuid>, q: seq<Uuid>, u: Uuid)
    requires GrewFrom(bins, roots, q) && u in q && !Good(bins, is32, u)
    ensures SomeBad(bins, is32, roots)
  {
  }

  lemma GoodIsEnqueued(bins: Binaries, is32: bool, q: seq<Uuid>, u: Uuid)
    requires Good(bins, is32, u)
    ensures EnqueueAll(q, Flatten(bins[u].dynamic)).Done?
  {
    EnqueueAllMeaning(q, Flatten(bins[u].dynamic));
  }

  /**
   The loop loads every module that the roots reach, and nothing else, each
   once; it gives up exactly when one of those cannot be loaded.
   */
  lemma {:induction false} LoadIsClosure(bins: Binaries, is32: bool, roots: seq<Uuid>, q: seq<Uuid>, i: nat)
    requires NoDuplicates(q) && i <= |q| && GoodUpTo(bins, is32, q, i)
    requires ClosedUpTo(bins, q, i) && GrewFrom(bins, roots, q)
    ensures Complete(bins, is32, roots, q, LoadFrom(bins, is32, q, i))
    decreases |bins.Keys| - i
  {
    var r := LoadFrom(bins, is32, q, i);
    if i == |q| {
      assert r == Done(q);
      NothingLeft(bins, roots, q);
    } else if Good(bins, is32, q[i]) {
      GoodIsEnqueued(bins, is32, q, q[i]);
      var more := EnqueueAll(q, Flatten(bins[q[i]].dynamic)).queue;
      LoadNext(bins, is32, q, i, more);
      OneTurn(bins, roots, q, i, more);
      LoadIsClosure(bins, is32, roots, more, i + 1);
      CompleteFromLater(bins, is32, roots, q, more, r);
    } else {
      LoadStops(bins, is32, q, i);
      BadRoot(bins, is32, roots, q, q[i]);
    }
  }

  lemma RootsAreReached(bins: Binaries, roots: seq<Uuid>)
    ensures GrewFrom(bins, roots, roots)
  {
    forall v | v in roots ensures FromSome(bins, roots, v) { ReachesItself(bins, v); }
  }

  lemma FromOne(bins: Binaries, u: Uuid, v: Uuid)
    ensures FromSome(bins, [u], v) <==> Reachable(bins, u, v)
  {
    if Reachable(bins, u, v) { assert u in [u]; }
  }

  /**
   Loading a trusted application: the queue starts with it, has no module twice
   and is exactly what it reaches; the loader gives up exactly when some module
   it reaches is missing, of the other width, or malformed.
   */
  lemma MainIsClosure(bins: Binaries, main: Uuid)
    requires main in bins
    ensures match LoadMain(bins, main)
            case Done(r) => && [main] <= r && NoDuplicates(r)
                            && (forall v :: v in r <==> Reachable(bins, main, v))
                            && GoodUpTo(bins, bins[main].is32, r, |r|) && ClosedUpTo(bins, r, |r|)
            case Err => exists v :: Reachable(bins, main, v) && !Good(bins, bins[main].is32, v)
  {
    var is32 := bins[main].is32;
    RootsAreReached(bins, [main]);
    LoadIsClosure(bins, is32, [main], [main], 0);
    forall v ensures FromSome(bins, [main], v) <==> Reachable(bins, main, v) { FromOne(bins, main, v); }
    assert Complete(bins, is32, [main], [main], LoadMain(bins, main));
  }

  lemma FromOldOrNew(bins: Binaries, q: seq<Uuid>, lib: Uuid, v: Uuid)
    requires ClosedUpTo(bins, q, |q|)
    ensures FromSome(bins, q + [lib], v) <==> v in q || Reachable(bins, lib, v)
  {
    if FromSome(bins, q + [lib], v) {
      var u :| u in q + [lib] && Reachable(bins, u, v);
      if u in q { ClosedHoldsAll(bins, q, u, v); }
    }
    if v in q { ReachesItself(bins, v); assert v in q + [lib]; }
    if Reachable(bins, lib, v) { assert (q + [lib])[|q|] == lib; }
  }

  /** Adding a library to a closed queue keeps the queue as it was in front, and closes it again. */
  lemma LibraryRestoresClosure(bins: Binaries, is32: bool, q: seq<Uuid>, lib: Uuid)
    requires NoDuplicates(q) && GoodUpTo(bins, is32, q, |q|) && ClosedUpTo(bins, q, |q|)
    ensures match AddLibrary(bins, is32, q, lib)
            case Done(r) => && q <= r && NoDuplicates(r) && ClosedUpTo(bins, r, |r|)
                            && (forall v :: v in r <==> v in q || Reachable(bins, lib, v))
                            && GoodUpTo(bins, is32, r, |r|)
            case Err => exists v :: Reachable(bins, lib, v) && !Good(bins, is32, v)
  {
    if lib in q {
      forall v | Reachable(bins, lib, v) ensures v in q { ClosedHoldsAll(bins, q, lib, v); }
    } else {
      var roots := q + [lib];
      RootsAreReached(bins, roots);
      LoadIsClosure(bins, is32, roots, roots, |q|);
      NewLibrary(bins, is32, q, lib, AddLibrary(bins, is32, q, lib));
    }
  }

  lemma NewLibrary(bins: Binaries, is32: bool, q: seq<Uuid>, lib: Uuid, r: Outcome)
    requires ClosedUpTo(bins, q, |q|) && GoodUpTo(bins, is32, q, |q|)
    requires Complete(bins, is32, q + [lib], q + [lib], r)
    ensures match r
            case Done(all) => q <= all && forall v :: v in all <==> v in q || Reachable(bins, lib, v)
            case Err => exists v :: Reachable(bins, lib, v) && !Good(bins, is32, v)
  {
    forall v ensures FromSome(bins, q + [lib], v) <==> v in q || Reachable(bins, lib, v) {
      FromOldOrNew(bins, q, lib, v);
    }
    if r.Err? {
      var v :| FromSome(bins, q + [lib], v) && !Good(bins, is32, v);
      assert v !in q;
    }
  }
}
