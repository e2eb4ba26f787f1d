/** The loader's methods over the queue of modules; false is the loader giving up. */
module ElfLoader {
  import opened ElfQueue

  lemma {:induction false} EnqueueJoins(q: seq<Uuid>, a: seq<Needed>, b: seq<Needed>)
    ensures EnqueueAll(q, a + b) == match EnqueueAll(q, a) case Err => Err case Done(r) => EnqueueAll(r, b)
    decreases |a|
  {
    if a == [] {
      assert a + b == b;
    } else {
      assert (a + b)[1..] == a[1..] + b;
      if a[0].Lib? { EnqueueJoins(Enqueue(q, a[0].uuid), a[1..], b); }
    }
  }

  lemma {:induction false} FlattenSplits(ds: seq<seq<Needed>>, n: nat)
    requires n < |ds|
    ensures Flatten(ds[n..]) == ds[n] + Flatten(ds[n + 1..])
  {
    assert ds[n..][1..] == ds[n + 1..];
  }

  predicate Ready(bins: Binaries, is32: bool, q: seq<Uuid>, i: nat) {
    NoDuplicates(q) && i <= |q| && GoodUpTo(bins, is32, q, i)
  }

  function Result(bins: Binaries, is32: bool, q: seq<Uuid>, i: nat): Outcome
    requires Ready(bins, is32, q, i)
  {
    LoadFrom(bins, is32, q, i)
  }

  lemma Next(bins: Binaries, is32: bool, q: seq<Uuid>, i: nat, more: seq<Uuid>)
    requires Ready(bins, is32, q, i) && i < |q| && Good(bins, is32, q[i])
    requires EnqueueAll(q, Flatten(bins[q[i]].dynamic)) == Done(more)
    ensures q <= more && Ready(bins, is32, more, i + 1) && i < |bins.Keys|
    ensures Result(bins, is32, q, i) == Result(bins, is32, more, i + 1)
  {
    LoadNext(bins, is32, q, i, more);
  }

  lemma Stops(bins: Binaries, is32: bool, q: seq<Uuid>, i: nat)
    requires Ready(bins, is32, q, i) && i < |q| && !Good(bins, is32, q[i])
    ensures Result(bins, is32, q, i) == Err
  {
    LoadStops(bins, is32, q, i);
  }

  class Loader {
    const bins: Binaries
    var queue: seq<Uuid>
    var loads: seq<Uuid>  // the modules that were loaded, in that order

    constructor (b: Binaries)
      ensures bins == b && queue == [] && loads == []
    {
      bins := b;
      queue := [];
      loads := [];
    }

    method FindElf(u: Uuid) returns (found: bool)
      ensures found <==> u in queue
    {
      for i := 0 to |queue|
        invariant u !in queue[..i]
      {
        if queue[i] == u {
          return true;
        }
      }
      return false;
    }

    method QueueElf(u: Uuid)
      modifies this`queue
      ensures queue == Enqueue(old(queue), u)
    {
      var found := FindElf(u);
      if !found {
        queue := queue + [u];
      }
    }

    /** Queue what one dynamic segment names. */
    method AddDepsFromSegment(ns: seq<Needed>) returns (ok: bool)
      modifies this`queue
      ensures match EnqueueAll(old(queue), ns) case Done(r) => ok && queue == r case Err => !ok
    {
      assert ns[0..] == ns;
      for n := 0 to |ns|
        invariant EnqueueAll(old(queue), ns) == EnqueueAll(queue, ns[n..])
      {
        assert ns[n..][0] == ns[n] && ns[n..][1..] == ns[n + 1..];
        if ns[n].Malformed? {
          return false;
        }
        QueueElf(ns[n].uuid);
      }
      return true;
    }

    method AddDependencies(ds: seq<seq<Needed>>) returns (ok: bool)
      modifies this`queue
      ensures match EnqueueAll(old(queue), Flatten(ds)) case Done(r) => ok && queue == r case Err => !ok
    {
      assert ds[0..] == ds;
      for n := 0 to |ds|
        invariant EnqueueAll(old(queue), Flatten(ds)) == EnqueueAll(queue, Flatten(ds[n..]))
      {
        FlattenSplits(ds, n);
        EnqueueJoins(queue, ds[n], Flatten(ds[n + 1..]));
        var queued := AddDepsFromSegment(ds[n]);
        if !queued {
          return false;
        }
      }
      return true;
    }

    /** Load module u of the given width, and queue what it needs. */
    method LoadModule(u: Uuid, is32: bool) returns (ok: bool)
      modifies this
      ensures ok ==> Good(bins, is32, u) && EnqueueAll(old(queue), Flatten(bins[u].dynamic)) == Done(queue)
      ensures ok ==> loads == old(loads) + [u]
      ensures !ok ==> !Good(bins, is32, u)
    {
      ghost var q := queue;
      if u !in bins || bins[u].is32 != is32 {
        return false;
      }
      loads := loads + [u];
      EnqueueAllMeaning(q, Flatten(bins[u].dynamic));
      ok := AddDependencies(bins[u].dynamic);
    }

    /** One turn of the loop; r is what the whole loop is to come to. */
    method LoadNextModule(i: nat, is32: bool, ghost r: Outcome) returns (ok: bool)
      requires Ready(bins, is32, queue, i) && i < |queue| && loads == queue[..i] && Result(bins, is32, queue, i) == r
      modifies this
      ensures ok ==> Ready(bins, is32, queue, i + 1) && loads == queue[..i + 1] && i < |bins.Keys|
      ensures ok ==> Result(bins, is32, queue, i + 1) == r
      ensures !ok ==> r == Err
    {
      ghost var q := queue;
      ok := LoadModule(queue[i], is32);
      if !ok {
        Stops(bins, is32, q, i);
        return;
      }
      Next(bins, is32, q, i, queue);
      assert queue[..i + 1] == q[..i] + [q[i]];
    }

    /** Load from position first on; the modules in front of it are loaded already. */
    method LoadRest(first: nat, is32: bool) returns (ok: bool)
      requires first <= |queue| && NoDuplicates(queue) && GoodUpTo(bins, is32, queue, first)
      requires loads == queue[..first]
      modifies this
      ensures match LoadFrom(bins, is32, old(queue), first)
              case Done(r) => ok && queue == r && loads == r
              case Err => !ok
    {
      var i := first;
      ghost var r := Result(bins, is32, queue, first);
      while i < |queue|
        invariant Ready(bins, is32, queue, i) && loads == queue[..i] && Result(bins, is32, queue, i) == r
        decreases |bins.Keys| - i
      {
        var loaded := LoadNextModule(i, is32, r);
        if !loaded {
          return false;
        }
        i := i + 1;
      }
      assert queue[..i] == queue;
      assert Result(bins, is32, queue, i) == Done(queue);
      return true;
    }

    /** The trusted application and everything it needs; it stands first and is loaded before the loop. */
    method LoadApplication(main: Uuid) returns (ok: bool)
      modifies this
      ensures match LoadMain(bins, main)
              case Done(r) => ok && queue == r && loads == r
              case Err => !ok
    {
      queue := [main];
      loads := [];
      if main !in bins {
        return false;
      }
      var is32 := bins[main].is32;
      ghost var q := queue;
      var loaded := LoadModule(main, is32);
      if !loaded {
        LoadStops(bins, is32, q, 0);
        return false;
      }
      LoadNext(bins, is32, q, 0, queue);
      assert queue[..1] == [main];
      ok := LoadRest(1, is32);
    }

    /** A library that the running application opens. */
    method OpenLibrary(lib: Uuid, is32: bool) returns (ok: bool)
      requires NoDuplicates(queue) && GoodUpTo(bins, is32, queue, |queue|) && loads == queue
      modifies this
      ensures match AddLibrary(bins, is32, old(queue), lib)
              case Done(r) => ok && queue == r && loads == r
              case Err => !ok
    {
      var found := FindElf(lib);
      if found {
        return true;
      }
      var first := |queue|;
      queue := queue + [lib];
      assert queue[..first] == loads;
      ok := LoadRest(first, is32);
    }
  }
}
