/** The LRU-K replacer: picks the frame whose k-th last access is oldest. */
module LruK {

  /** What happened to the frames, in order. */
  datatype Ev = Access(f: nat) | Forget(f: nat)

  function Clock(trace: seq<Ev>): nat {
    if trace == [] then 0 else Clock(trace[..|trace| - 1]) + if trace[|trace| - 1].Access? then 1 else 0
  }

  /** The times of all accesses to a frame since it was last forgotten; the n-th access is at time n. */
  function Times(trace: seq<Ev>, f: nat): seq<nat> {
    if trace == [] then []
    else
      var n := |trace| - 1;
      if trace[n] == Access(f) then Times(trace[..n], f) + [Clock(trace)]
      else if trace[n] == Forget(f) then []
      else Times(trace[..n], f)
  }

  /** The last `k` of some times. */
  function LastK(ts: seq<nat>, k: nat): (r: seq<nat>)
    ensures |r| == if |ts| < k then |ts| else k
  {
    if |ts| <= k then ts else ts[|ts| - k..]
  }

  /** Frame `v` is at least as good a victim as frame `f`: fewer than k accesses first, then age. */
  predicate Before(trace: seq<Ev>, k: nat, v: nat, f: nat)
    requires k >= 1
  {
    if Young(trace, k, v) then !Young(trace, k, f) || First(trace, v) <= First(trace, f)
    else !Young(trace, k, f) && Kth(trace, k, v) <= Kth(trace, k, f)
  }

  /** Accessed fewer than k times. */
  predicate Young(trace: seq<Ev>, k: nat, f: nat) {
    |Times(trace, f)| < k
  }

  /** The time of the first access. */
  function First(trace: seq<Ev>, f: nat): nat {
    if Times(trace, f) == [] then 0 else Times(trace, f)[0]
  }

  /** The time of the k-th last access. */
  function Kth(trace: seq<Ev>, k: nat, f: nat): nat {
    var ts := Times(trace, f);
    if 1 <= k <= |ts| then ts[|ts| - k] else 0
  }

  datatype Frame = Frame(history: seq<nat>, evictable: bool, tracked: bool)

  function Evictables(frames: seq<Frame>): nat {
    if frames == [] then 0 else Evictables(frames[..|frames| - 1]) + if frames[|frames| - 1].evictable then 1 else 0
  }

  lemma {:induction false} EvictablesUpdate(frames: seq<Frame>, i: nat, f: Frame)
    requires i < |frames|
    ensures Evictables(frames[i := f])
         == Evictables(frames) - (if frames[i].evictable then 1 else 0) + (if f.evictable then 1 else 0)
  {
    var n := |frames| - 1;
    if i == n {
      assert frames[i := f][..n] == frames[..n];
    } else {
      assert frames[i := f][..n] == frames[..n][i := f];
      EvictablesUpdate(frames[..n], i, f);
    }
  }

  lemma {:induction false} NoEvictables(frames: seq<Frame>, i: nat)
    requires Evictables(frames) == 0 && i < |frames|
    ensures !frames[i].evictable
  {
    if i < |frames| - 1 {
      NoEvictables(frames[..|frames| - 1], i);
    }
  }

  lemma {:induction false} SomeEvictable(frames: seq<Frame>) returns (i: nat)
    requires Evictables(frames) > 0
    ensures i < |frames| && frames[i].evictable
  {
    var n := |frames| - 1;
    if frames[n].evictable {
      i := n;
    } else {
      i := SomeEvictable(frames[..n]);
    }
  }

  lemma {:induction false} NoneTracked(n: nat, frames: seq<Frame>)
    requires |frames| == n && forall i :: 0 <= i < n ==> !frames[i].evictable
    ensures Evictables(frames) == 0
  {
    if n > 0 {
      NoneTracked(n - 1, frames[..n - 1]);
    }
  }

  lemma {:induction false} TimesSnoc(trace: seq<Ev>, e: Ev, f: nat)
    ensures Times(trace + [e], f)
         == if e == Access(f) then Times(trace, f) + [Clock(trace) + 1]
            else if e == Forget(f) then [] else Times(trace, f)
    ensures Clock(trace + [e]) == Clock(trace) + if e.Access? then 1 else 0
  {
    assert (trace + [e])[..|trace|] == trace;
  }

  /** Pushing a time and dropping the oldest beyond k keeps the last k. */
  lemma {:induction false} LastKPush(ts: seq<nat>, k: nat, t: nat)
    requires k >= 1
    ensures var h := LastK(ts, k) + [t];
            LastK(ts + [t], k) == if |h| > k then h[1..] else h
  {
  }

  /** A frame remembers the last k accesses. */
  ghost predicate Remembers(trace: seq<Ev>, k: nat, f: nat, d: Frame) {
    && d.history == LastK(Times(trace, f), k)
    && (d.tracked <==> Times(trace, f) != [])
    && (d.evictable ==> d.tracked)
  }

  ghost predicate AllRemember(trace: seq<Ev>, k: nat, frames: seq<Frame>) {
    forall f :: 0 <= f < |frames| ==> Remembers(trace, k, f, frames[f])
  }

  /** Frame `f` after one more access. */
  function Accessed(d: Frame, k: nat, t: nat): Frame {
    var h := d.history + [t];
    Frame(if |h| > k then h[1..] else h, d.evictable, true)
  }

  lemma {:induction false} FrameAccessed(trace: seq<Ev>, k: nat, f: nat, d: Frame, id: nat)
    requires k >= 1 && Remembers(trace, k, f, d)
    ensures Remembers(trace + [Access(id)], k, f, if f == id then Accessed(d, k, Clock(trace) + 1) else d)
  {
    hide Times, Clock;
    TimesSnoc(trace, Access(id), f);
    LastKPush(Times(trace, f), k, Clock(trace) + 1);
  }

  lemma {:induction false} AccessRemembered(trace: seq<Ev>, k: nat, frames: seq<Frame>, id: nat)
    requires k >= 1 && AllRemember(trace, k, frames) && id < |frames|
    ensures AllRemember(trace + [Access(id)], k, frames[id := Accessed(frames[id], k, Clock(trace) + 1)])
  {
    hide Times, Clock, LastK, Accessed, Remembers;
    var after := frames[id := Accessed(frames[id], k, Clock(trace) + 1)];
    forall f | 0 <= f < |frames|
      ensures Remembers(trace + [Access(id)], k, f, after[f])
    {
      assert Remembers(trace, k, f, frames[f]);
      FrameAccessed(trace, k, f, frames[f], id);
    }
  }

  lemma {:induction false} ForgetRemembered(trace: seq<Ev>, k: nat, frames: seq<Frame>, id: nat)
    requires AllRemember(trace, k, frames) && id < |frames|
    ensures AllRemember(trace + [Forget(id)], k, frames[id := Frame([], false, false)])
  {
    var after := frames[id := Frame([], false, false)];
    forall f | 0 <= f < |frames|
      ensures Remembers(trace + [Forget(id)], k, f, after[f])
    {
      assert Remembers(trace, k, f, frames[f]);
      TimesSnoc(trace, Forget(id), f);
      hide Times, Clock;
    }
  }

  /** What the remembered front says about the whole trace. */
  lemma {:induction false} FrontMeans(trace: seq<Ev>, k: nat, f: nat, d: Frame)
    requires k >= 1 && Remembers(trace, k, f, d) && d.tracked
    ensures d.history != []
    ensures |d.history| < k <==> Young(trace, k, f)
    ensures d.history[0] == if |d.history| < k then First(trace, f) else Kth(trace, k, f)
  {
  }

  /**
   * With k = 2: a frame accessed once goes before one accessed twice, of two accessed once the
   * one accessed first, and of two accessed twice the one whose last access but one is older.
   */
  lemma {:induction false} BeforeExamples()
    ensures var t := [Access(0), Access(0), Access(1)]; Before(t, 2, 1, 0) && !Before(t, 2, 0, 1)
    ensures var t := [Access(0), Access(1)]; Before(t, 2, 0, 1) && !Before(t, 2, 1, 0)
    ensures var t := [Access(0), Access(1), Access(1), Access(0)]; Before(t, 2, 0, 1) && !Before(t, 2, 1, 0)
  {
    var a, b, c := [Access(0)], [Access(0), Access(0)], [Access(0), Access(1)];
    var d := [Access(0), Access(1), Access(1)];
    BothSnoc([], Access(0), a);
    BothSnoc(a, Access(0), b);
    BothSnoc(b, Access(1), [Access(0), Access(0), Access(1)]);
    BothSnoc(a, Access(1), c);
    BothSnoc(c, Access(1), d);
    BothSnoc(d, Access(0), [Access(0), Access(1), Access(1), Access(0)]);
    hide Times, Clock;
  }

  lemma {:induction false} BothSnoc(trace: seq<Ev>, e: Ev, more: seq<Ev>)
    requires more == trace + [e] && e.Access?
    ensures Clock(more) == Clock(trace) + 1
    ensures Times(more, 0) == if e == Access(0) then Times(trace, 0) + [Clock(trace) + 1] else Times(trace, 0)
    ensures Times(more, 1) == if e == Access(1) then Times(trace, 1) + [Clock(trace) + 1] else Times(trace, 1)
    ensures trace == [] ==> Clock(trace) == 0 && Times(trace, 0) == [] && Times(trace, 1) == []
  {
    TimesSnoc(trace, e, 0);
    TimesSnoc(trace, e, 1);
  }

  class Replacer {
    const k: nat
    var frames: seq<Frame>
    var counter: nat
    var evictableCount: nat
    ghost var trace: seq<Ev>

    ghost predicate Valid()
      reads this
    {
      && k >= 1 && counter == Clock(trace) && evictableCount == Evictables(frames)
      && AllRemember(trace, k, frames)
    }

    constructor (n: nat, k: nat)
      requires k >= 1
      ensures Valid() && |frames| == n && this.k == k && trace == []
      ensures forall f :: 0 <= f < n ==> !frames[f].tracked && !frames[f].evictable
    {
      this.k := k;
      frames := seq(n, _ => Frame([], false, false));
      counter, evictableCount, trace := 0, 0, [];
      new;
      NoneTracked(n, frames);
    }

    /** Changes the evictable flag of a tracked frame. */
    method SetEvictable(id: nat, on: bool)
      requires Valid() && id < |frames|
      modifies this`frames, this`evictableCount
      ensures Valid() && |frames| == old(|frames|)
      ensures frames == if old(frames)[id].tracked then old(frames)[id := old(frames)[id].(evictable := on)] else old(frames)
    {
      if !frames[id].tracked || frames[id].evictable == on {
        return;
      }
      EvictablesUpdate(frames, id, frames[id].(evictable := on));
      evictableCount := if on then evictableCount + 1 else evictableCount - 1;
      frames := frames[id := frames[id].(evictable := on)];
    }

    method Pin(id: nat)
      requires Valid() && id < |frames|
      modifies this`frames, this`evictableCount
      ensures Valid() && |frames| == old(|frames|)
      ensures frames == if old(frames)[id].tracked then old(frames)[id := old(frames)[id].(evictable := false)] else old(frames)
    {
      SetEvictable(id, false);
    }

    method Unpin(id: nat)
      requires Valid() && id < |frames|
      modifies this`frames, this`evictableCount
      ensures Valid() && |frames| == old(|frames|)
      ensures frames == if old(frames)[id].tracked then old(frames)[id := old(frames)[id].(evictable := true)] else old(frames)
    {
      SetEvictable(id, true);
    }

    method RecordAccess(id: nat)
      requires Valid() && id < |frames|
      modifies this`frames, this`counter, this`trace
      ensures Valid() && |frames| == old(|frames|) && trace == old(trace) + [Access(id)]
      ensures frames[id].tracked && frames[id].evictable == old(frames)[id].evictable
      ensures forall f :: 0 <= f < |frames| && f != id ==> frames[f] == old(frames)[f]
    {
      hide AllRemember, Times, Evictables, Clock;
      AccessRemembered(trace, k, frames, id);
      TimesSnoc(trace, Access(id), id);
      counter := counter + 1;
      var h := frames[id].history + [counter];
      if |h| > k {
        h := h[1..];
      }
      EvictablesUpdate(frames, id, Frame(h, frames[id].evictable, true));
      frames := frames[id := Frame(h, frames[id].evictable, true)];
      trace := trace + [Access(id)];
    }

    /** An access by someone who pins the frame. */
    method Touch(id: nat)
      requires Valid() && id < |frames|
      modifies this
      ensures Valid() && |frames| == old(|frames|) && trace == old(trace) + [Access(id)]
      ensures frames[id].tracked && !frames[id].evictable
      ensures forall f :: 0 <= f < |frames| && f != id ==> frames[f] == old(frames)[f]
    {
      hide Valid;
      RecordAccess(id);
      Pin(id);
    }

    method Remove(id: nat)
      requires Valid() && id < |frames|
      modifies this`frames, this`evictableCount, this`trace
      ensures Valid() && |frames| == old(|frames|)
      ensures frames == if old(frames)[id].tracked then old(frames)[id := Frame([], false, false)] else old(frames)
      ensures trace == if old(frames)[id].tracked then old(trace) + [Forget(id)] else old(trace)
    {
      hide AllRemember, Times, Evictables, Clock;
      if !frames[id].tracked {
        return;
      }
      EvictablesUpdate(frames, id, Frame([], false, false));
      TimesSnoc(trace, Forget(id), id);
      ForgetRemembered(trace, k, frames, id);
      evictableCount := if frames[id].evictable then evictableCount - 1 else evictableCount;
      frames := frames[id := Frame([], false, false)];
      trace := trace + [Forget(id)];
    }

    /** Picks and forgets the LRU-K victim among the evictable frames. */
    method Victim() returns (found: bool, out: nat)
      requires Valid()
      modifies this`frames, this`evictableCount, this`trace
      ensures Valid() && |frames| == old(|frames|)
      ensures found <==> exists f :: 0 <= f < old(|frames|) && old(frames)[f].evictable
      ensures !found ==> frames == old(frames) && trace == old(trace)
      ensures found ==> trace == old(trace) + [Forget(out)]
      ensures found ==> IsVictim(old(trace), k, old(frames), out)
      ensures found ==> frames == old(frames)[out := Frame([], false, false)]
    {
      if evictableCount == 0 {
        forall f | 0 <= f < |frames| {
          NoEvictables(frames, f);
        }
        return false, 0;
      }
      ghost var w := SomeEvictable(frames);
      out := Choose();
      assert Remembers(trace, k, out, frames[out]);
      Remove(out);
      found := true;
    }

    method Choose() returns (out: nat)
      requires Valid() && exists f :: 0 <= f < |frames| && frames[f].evictable
      ensures IsVictim(trace, k, frames, out)
    {
      hide Times, First, Kth, Young, LastK;
      var young, youngTs, hasYoung := 0, 0, false;
      var old', oldTs, hasOld := 0, 0, false;
      var i := 0;
      while i < |frames|
        invariant i <= |frames|
        invariant BestUnder(trace, k, frames, i, hasYoung, young, youngTs)
        invariant BestFull(trace, k, frames, i, hasOld, old', oldTs)
      {
        var f := frames[i];
        assert Remembers(trace, k, i, f);
        if f.tracked && f.evictable {
          FrontMeans(trace, k, i, f);
          var front := f.history[0];
          if |f.history| < k {
            if !hasYoung || front < youngTs {
              young, youngTs, hasYoung := i, front, true;
            }
          } else {
            if !hasOld || front < oldTs {
              old', oldTs, hasOld := i, front, true;
            }
          }
        }
        i := i + 1;
      }
      out := if hasYoung then young else old';
    }
  }

  /** The evictable frame with fewer than k accesses that was accessed first, among the first `n`. */
  ghost predicate BestUnder(trace: seq<Ev>, k: nat, frames: seq<Frame>, n: nat, has: bool, v: nat, ts: nat)
    requires n <= |frames|
  {
    && (has ==> v < n && frames[v].evictable && Young(trace, k, v) && ts == First(trace, v))
    && (forall f :: 0 <= f < n && frames[f].evictable && Young(trace, k, f) ==> has && ts <= First(trace, f))
  }

  /** The evictable frame whose k-th last access is oldest, among the first `n` with k accesses. */
  ghost predicate BestFull(trace: seq<Ev>, k: nat, frames: seq<Frame>, n: nat, has: bool, v: nat, ts: nat)
    requires n <= |frames|
  {
    && (has ==> v < n && frames[v].evictable && !Young(trace, k, v) && ts == Kth(trace, k, v))
    && (forall f :: 0 <= f < n && frames[f].evictable && !Young(trace, k, f) ==> has && ts <= Kth(trace, k, f))
  }

  /** `v` is evictable and comes before every other evictable frame. */
  ghost predicate IsVictim(trace: seq<Ev>, k: nat, frames: seq<Frame>, v: nat)
    requires k >= 1
  {
    v < |frames| && frames[v].evictable && forall f :: 0 <= f < |frames| && frames[f].evictable ==> Before(trace, k, v, f)
  }
}
