/** A page cache over whole runs of fetches and unpins: what is cached, pinned and evicted follows from the calls. */
module BufferRuns {
  import opened Options
  import opened LruK
  import opened BufferPools

  datatype Call = Fetch(id: PageId) | Unpin(id: PageId)

  /** Whether a call succeeded, and the page evicted for it. */
  datatype Outcome = Outcome(ok: bool, gone: Option<PageId>)

  /** A call and what came of it. */
  type Log = seq<(Call, Outcome)>

  /** The pages in the cache: fetched with success and not evicted since. */
  ghost function Cached(log: Log): set<PageId> {
    if log == [] then {}
    else
      var n := |log| - 1;
      var before := Cached(log[..n]);
      var (call, out) := log[n];
      var left := if out.gone.Some? then before - {out.gone.value} else before;
      if call.Fetch? && out.ok then left + {call.id} else left
  }

  /** How often a page is pinned: once per successful fetch, less the successful unpins. */
  ghost function PinsOf(log: Log, id: PageId): int {
    if log == [] then 0
    else
      var n := |log| - 1;
      var (call, out) := log[n];
      PinsOf(log[..n], id) + if call.id != id || !out.ok then 0 else if call.Fetch? then 1 else -1
  }

  /** The successful fetches and the evictions, in order. */
  ghost function History(log: Log): seq<Ev> {
    if log == [] then []
    else
      var n := |log| - 1;
      var (call, out) := log[n];
      Later(History(log[..n]), out.gone, if call.Fetch? && out.ok then Some(call.id) else None)
  }

  /** A page in the cache that nobody has pinned. */
  ghost predicate Idle(log: Log, x: PageId) {
    x in Cached(log) && PinsOf(log, x) == 0
  }

  ghost predicate SomeIdle(log: Log) {
    exists x :: Idle(log, x)
  }

  /**
   * The outcome that a cache of `capacity` pages must have after the calls of `log`: a fetch
   * succeeds if the page is cached, or is on the disk and there is room or an idle page; it
   * evicts an idle page exactly if the page is not cached and there is no room, and then the
   * LRU-K choice by the fetches themselves. An unpin succeeds exactly if the page is pinned.
   */
  ghost predicate Right(disk: map<PageId, Data>, capacity: nat, k: nat, log: Log, call: Call, out: Outcome)
    requires k >= 1
  {
    match call
    case Fetch(id) =>
      var cached := Cached(log);
      && (out.ok <==> id in cached || (id in disk && (|cached| < capacity || SomeIdle(log))))
      && (out.gone.Some? <==> id !in cached && |cached| == capacity && SomeIdle(log))
      && (out.gone.Some? ==> Idle(log, out.gone.value))
      && (out.gone.Some? ==> forall x :: Idle(log, x) ==> Before(History(log), k, out.gone.value, x))
    case Unpin(id) =>
      out.gone.None? && (out.ok <==> PinsOf(log, id) > 0)
  }

  ghost predicate AllRight(disk: map<PageId, Data>, capacity: nat, k: nat, log: Log)
    requires k >= 1
  {
    forall i :: 0 <= i < |log| ==> Right(disk, capacity, k, log[..i], log[i].0, log[i].1)
  }

  /** A pool with this history is as the log says. */
  ghost predicate Follows(p: Pool, hist: seq<Ev>, log: Log) {
    && hist == History(log)
    && (forall x :: x in p.table <==> x in Cached(log))
    && (forall x :: Pins(p, x) == PinsOf(log, x))
  }

  lemma {:induction false} LogSnoc(log: Log, call: Call, out: Outcome, x: PageId)
    ensures var more := log + [(call, out)];
            && Cached(more) == (if out.gone.Some? then Cached(log) - {out.gone.value} else Cached(log))
                               + (if call.Fetch? && out.ok then {call.id} else {})
            && PinsOf(more, x) == PinsOf(log, x) + (if call.id != x || !out.ok then 0 else if call.Fetch? then 1 else -1)
            && History(more) == Later(History(log), out.gone, if call.Fetch? && out.ok then Some(call.id) else None)
  {
    assert (log + [(call, out)])[..|log|] == log;
  }

  lemma {:induction false} SizeIs(p: Pool, hist: seq<Ev>, log: Log)
    requires Follows(p, hist, log)
    ensures |p.table| == |Cached(log)|
  {
    assert p.table.Keys == Cached(log);
    assert |p.table| == |p.table.Keys|;
  }

  lemma {:induction false} IdleIs(p: Pool, hist: seq<Ev>, log: Log)
    requires Follows(p, hist, log)
    ensures forall x :: Idle(log, x) <==> x in p.table && Pins(p, x) == 0
    ensures SomeIdle(log) <==> SomeUnpinned(p)
  {
    hide Cached, PinsOf, History, Pins;
    if x :| Idle(log, x) {
      assert x in p.table && Pins(p, x) == 0;
    }
    if x :| x in p.table && Pins(p, x) == 0 {
      assert Idle(log, x);
    }
  }

  /** What a fetch of the pool does is what the log calls for. */
  lemma {:induction false} FetchRight(disk: map<PageId, Data>, k: nat, p: Pool, hist: seq<Ev>, log: Log, id: PageId, out: Outcome)
    requires Follows(p, hist, log) && k >= 1 && |p.table| <= |p.slots|
    requires out.ok <==> id in p.table || (id in disk && (|p.table| < |p.slots| || SomeUnpinned(p)))
    requires out.gone.Some? <==> id !in p.table && |p.table| == |p.slots| && SomeUnpinned(p)
    requires out.gone.Some? ==> PageVictim(p, hist, k, out.gone.value)
    ensures Right(disk, |p.slots|, k, log, Fetch(id), out)
  {
    SizeIs(p, hist, log);
    IdleIs(p, hist, log);
    hide Cached, PinsOf, History, Pins, SomeUnpinned, SomeIdle, Idle, Before;
  }

  lemma {:induction false} PinsStay(p: Pool, q: Pool, x: PageId)
    requires x in p.table ==> Stays(p, q, x)
    requires x !in p.table ==> x !in q.table
    ensures Pins(q, x) == Pins(p, x)
  {
  }

  /** The pool after a fetch follows the longer log. */
  lemma {:induction false} FetchFollows(p: Pool, hist: seq<Ev>, q: Pool, hist': seq<Ev>, log: Log, id: PageId, out: Outcome, k: nat)
    requires Follows(p, hist, log) && k >= 1
    requires hist' == Later(hist, out.gone, if out.ok then Some(id) else None)
    requires forall x :: x in q.table <==> (x in p.table && out.gone != Some(x)) || (out.ok && x == id)
    requires out.gone.Some? ==> PageVictim(p, hist, k, out.gone.value) && out.gone.value != id
    requires forall x :: x in p.table && x != id && out.gone != Some(x) ==> Stays(p, q, x)
    requires if out.ok then Pins(q, id) == Pins(p, id) + 1 else id !in p.table
    ensures Follows(q, hist', log + [(Fetch(id), out)])
  {
    var more := log + [(Fetch(id), out)];
    forall x
      ensures x in q.table <==> x in Cached(more)
      ensures Pins(q, x) == PinsOf(more, x)
    {
      LogSnoc(log, Fetch(id), out, x);
      hide Cached, PinsOf, History, Before, Later;
      if x != id && out.gone != Some(x) {
        PinsStay(p, q, x);
      }
    }
    LogSnoc(log, Fetch(id), out, id);
  }

  lemma {:induction false} UnpinFollows(p: Pool, hist: seq<Ev>, q: Pool, log: Log, id: PageId, ok: bool)
    requires Follows(p, hist, log) && q.table == p.table
    requires ok ==> Pins(q, id) == Pins(p, id) - 1
    requires forall x :: x in p.table && (x != id || !ok) ==> Stays(p, q, x)
    ensures Follows(q, hist, log + [(Unpin(id), Outcome(ok, None))])
  {
    var out := Outcome(ok, None);
    var more := log + [(Unpin(id), out)];
    forall x
      ensures x in q.table <==> x in Cached(more)
      ensures Pins(q, x) == PinsOf(more, x)
    {
      LogSnoc(log, Unpin(id), out, x);
      hide Cached, PinsOf, History;
      if x != id || !ok {
        PinsStay(p, q, x);
      }
    }
    LogSnoc(log, Unpin(id), out, id);
    assert Later(hist, None, None) == hist;
  }

  lemma {:induction false} RightSnoc(disk: map<PageId, Data>, capacity: nat, k: nat, log: Log, call: Call, out: Outcome)
    requires k >= 1 && AllRight(disk, capacity, k, log) && Right(disk, capacity, k, log, call, out)
    ensures AllRight(disk, capacity, k, log + [(call, out)])
  {
    hide Right;
    var more := log + [(call, out)];
    forall i | 0 <= i < |more|
      ensures Right(disk, capacity, k, more[..i], more[i].0, more[i].1)
    {
      assert more[..i] == log[..i];
      if i == |log| {
        assert log[..i] == log;
      }
    }
  }

  /** One call of the pool. */
  method Do(pool: BufferPool, call: Call, ghost log: Log) returns (ok: bool, ghost out: Outcome)
    requires pool.Valid() && Follows(pool.State(), pool.hist, log)
    modifies pool, pool.replacer
    ensures pool.Valid() && |pool.slots| == old(|pool.slots|) && out.ok == ok
    ensures Follows(pool.State(), pool.hist, log + [(call, out)])
    ensures pool.replacer.k >= 1 && Right(pool.disk, |pool.slots|, pool.replacer.k, log, call, out)
  {
    ghost var p, h, k := pool.State(), pool.hist, pool.replacer.k;
    FullMeans(p, pool.disk);
    match call
    case Fetch(id) =>
      hide PoolOk, Agree, Counted, Mirror, PageVictim, SomeUnpinned, Stays, Pins, Follows, Right;
      var buf;
      ghost var gone;
      buf, gone := pool.FetchPage(id);
      ok := buf.Some?;
      out := Outcome(ok, gone);
      FetchRight(pool.disk, k, p, h, log, id, out);
      PinsNow(pool.disk, pool.State(), id);
      FetchFollows(p, h, pool.State(), pool.hist, log, id, out, k);
    case Unpin(id) =>
      hide PoolOk, Agree, Counted, Mirror, PageVictim, SomeUnpinned, Stays, Pins;
      ok := pool.UnpinPage(id);
      out := Outcome(ok, None);
      UnpinFollows(p, h, pool.State(), log, id, ok);
  }

  lemma {:induction false} PinsNow(disk: map<PageId, Data>, p: Pool, id: PageId)
    requires PoolOk(disk, p, None)
    ensures id in p.table ==> p.table[id] < |p.slots| && p.slots[p.table[id]].Some?
    ensures id in p.table ==> p.slots[p.table[id]].value < |p.slab| && Pins(p, id) == p.slab[p.slots[p.table[id]].value].pins
  {
    if id in p.table {
      assert Entered(disk, p, id);
    }
  }

  /**
   * A cache serves any run of calls: every outcome is the one that the calls before it ask for,
   * and every page evicted is the LRU-K choice by the fetches of the run.
   */
  method Serve(capacity: nat, disk: map<PageId, Data>, k: nat, calls: seq<Call>) returns (oks: seq<bool>, ghost log: Log)
    requires k >= 1
    ensures |oks| == |log| == |calls| && forall i :: 0 <= i < |calls| ==> log[i].0 == calls[i] && log[i].1.ok == oks[i]
    ensures AllRight(disk, capacity, k, log)
  {
    var pool := new BufferPool(capacity, disk, k);
    oks, log := [], [];
    var i := 0;
    while i < |calls|
      invariant i <= |calls| && |oks| == |log| == i && fresh(pool) && fresh(pool.replacer)
      invariant pool.Valid() && |pool.slots| == capacity && pool.disk == disk && pool.replacer.k == k
      invariant Follows(pool.State(), pool.hist, log) && AllRight(disk, capacity, k, log)
      invariant forall j :: 0 <= j < i ==> log[j].0 == calls[j] && log[j].1.ok == oks[j]
    {
      hide Follows, AllRight, Right, PoolOk, Agree, Counted, Mirror;
      var ok;
      ghost var out;
      ok, out := Do(pool, calls[i], log);
      RightSnoc(disk, capacity, k, log, calls[i], out);
      oks, log := oks + [ok], log + [(calls[i], out)];
      i := i + 1;
    }
  }
}
