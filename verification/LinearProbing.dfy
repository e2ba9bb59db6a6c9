/**
 * Open addressing with linear probing, as the hash join and the hash aggregate use it:
 * entries are only added, each at the first free slot from its home slot on. `es` is the
 * list of entries in the order they were added, `ds` their distances from home and `own`
 * the number of the entry in each used slot.
 */
module LinearProbing {

  datatype Slot<T> = Free | Used(hash: nat, item: T)

  datatype Entry<T> = Entry(hash: nat, item: T)

  /** The slot `d` places after `a`, around the end of the table. */
  function At(a: nat, d: nat, m: nat): (s: nat)
    requires a < m && d < m
    ensures s < m
  {
    if a + d < m then a + d else a + d - m
  }

  /** `hash & mask`: the table size is a power of two. */
  function Home(hash: nat, m: nat): (s: nat)
    requires m > 0
    ensures s < m
  {
    hash % m
  }

  /** `(slot + 1) & mask`. */
  function NextSlot(s: nat, m: nat): nat
    requires s < m
  {
    if s + 1 == m then 0 else s + 1
  }

  predicate PowerOfTwo(n: nat)
    decreases n
  {
    n == 1 || (n > 1 && n % 2 == 0 && PowerOfTwo(n / 2))
  }

  /** The least power of two that is not below `x`. */
  function NextPow2(x: nat): (r: nat)
    ensures PowerOfTwo(r) && x <= r
    ensures x >= 1 ==> r < 2 * x
  {
    if x <= 1 then 1 else 2 * NextPow2((x + 1) / 2)
  }

  function FreeSlots<T>(t: seq<Slot<T>>): (n: nat)
    ensures n <= |t|
  {
    if t == [] then 0 else FreeSlots(t[..|t| - 1]) + if t[|t| - 1].Free? then 1 else 0
  }

  function NoEntries<T>(m: nat): (t: seq<Slot<T>>)
    ensures |t| == m && forall s :: 0 <= s < m ==> t[s].Free?
  {
    seq(m, _ => Free)
  }

  lemma {:induction false} NoEntriesFree<T>(t: seq<Slot<T>>)
    requires forall s :: 0 <= s < |t| ==> t[s].Free?
    ensures FreeSlots(t) == |t|
  {
    if t != [] {
      NoEntriesFree(t[..|t| - 1]);
    }
  }

  lemma {:induction false} UseFreesLess<T>(t: seq<Slot<T>>, s: nat, e: Slot<T>)
    requires s < |t| && t[s].Free? && e.Used?
    ensures FreeSlots(t[s := e]) == FreeSlots(t) - 1
  {
    var n := |t| - 1;
    if s == n {
      assert t[s := e][..n] == t[..n];
    } else {
      UseFreesLess(t[..n], s, e);
      assert t[s := e][..n] == t[..n][s := e];
    }
  }

  lemma {:induction false} SomeFree<T>(t: seq<Slot<T>>) returns (s: nat)
    requires FreeSlots(t) > 0
    ensures s < |t| && t[s].Free?
  {
    var n := |t| - 1;
    if t[n].Free? {
      s := n;
    } else {
      s := SomeFree(t[..n]);
    }
  }

  ghost predicate Shape<T>(t: seq<Slot<T>>, es: seq<Entry<T>>, ds: seq<nat>, own: seq<nat>) {
    && |t| > 0 && |ds| == |es| && |own| == |t|
    && FreeSlots(t) + |es| == |t|
    && (forall k :: 0 <= k < |es| ==> ds[k] < |t|)
  }

  /** Each entry is in the table at its distance. */
  ghost predicate Seated<T>(t: seq<Slot<T>>, es: seq<Entry<T>>, ds: seq<nat>, own: seq<nat>)
    requires Shape(t, es, ds, own)
  {
    forall k :: 0 <= k < |es| ==> t[At(Home(es[k].hash, |t|), ds[k], |t|)] == Used(es[k].hash, es[k].item)
  }

  ghost predicate Crowded<T>(t: seq<Slot<T>>, h: nat, d: nat)
    requires |t| > 0 && d <= |t|
  {
    forall j :: 0 <= j < d ==> t[At(Home(h, |t|), j, |t|)].Used?
  }

  /** Every slot between an entry's home and its place is used. */
  ghost predicate Packed<T>(t: seq<Slot<T>>, es: seq<Entry<T>>, ds: seq<nat>, own: seq<nat>)
    requires Shape(t, es, ds, own)
  {
    forall k :: 0 <= k < |es| ==> Crowded(t, es[k].hash, ds[k])
  }

  /** Every used slot belongs to an entry. */
  ghost predicate Owned<T>(t: seq<Slot<T>>, es: seq<Entry<T>>, ds: seq<nat>, own: seq<nat>)
    requires Shape(t, es, ds, own)
  {
    forall s :: 0 <= s < |t| && t[s].Used? ==>
      own[s] < |es| && At(Home(es[own[s]].hash, |t|), ds[own[s]], |t|) == s
  }

  /** Entries with one hash are met in the order in which they were added. */
  ghost predicate Ordered<T>(t: seq<Slot<T>>, es: seq<Entry<T>>, ds: seq<nat>, own: seq<nat>)
    requires Shape(t, es, ds, own)
  {
    forall a, b :: 0 <= a < b < |es| && es[a].hash == es[b].hash ==> ds[a] < ds[b]
  }

  ghost predicate Holds<T>(t: seq<Slot<T>>, es: seq<Entry<T>>, ds: seq<nat>, own: seq<nat>) {
    && Shape(t, es, ds, own)
    && Seated(t, es, ds, own)
    && Packed(t, es, ds, own)
    && Owned(t, es, ds, own)
    && Ordered(t, es, ds, own)
  }

  lemma {:induction false} EmptyHolds<T>(t: seq<Slot<T>>, own: seq<nat>)
    requires |t| > 0 && |own| == |t| && forall s :: 0 <= s < |t| ==> t[s].Free?
    ensures Holds(t, [], [], own)
  {
    NoEntriesFree(t);
  }

  /** Walking from any slot of a table that is not full meets a free slot. */
  lemma {:induction false} MeetsFree<T>(t: seq<Slot<T>>, es: seq<Entry<T>>, ds: seq<nat>, own: seq<nat>, a: nat)
    returns (d: nat)
    requires Holds(t, es, ds, own) && |es| < |t| && a < |t|
    ensures d < |t| && t[At(a, d, |t|)].Free?
  {
    assert Shape(t, es, ds, own);
    var s := SomeFree(t);
    d := if a <= s then s - a else s + |t| - a;
  }

  lemma {:induction false} AtInjective(a: nat, d: nat, e: nat, m: nat)
    requires a < m && d < m && e < m && At(a, d, m) == At(a, e, m)
    ensures d == e
  {
  }

  /** The used slot met at distance `d` with the hash looked for is an entry at that distance. */
  lemma {:induction false} OwnerAt<T>(t: seq<Slot<T>>, es: seq<Entry<T>>, ds: seq<nat>, own: seq<nat>, h: nat, d: nat)
    returns (k: nat)
    requires Holds(t, es, ds, own) && d < |t|
    requires t[At(Home(h, |t|), d, |t|)].Used? && t[At(Home(h, |t|), d, |t|)].hash == h
    ensures k < |es| && es[k].hash == h && ds[k] == d && es[k].item == t[At(Home(h, |t|), d, |t|)].item
  {
    var s := At(Home(h, |t|), d, |t|);
    k := own[s];
    assert t[At(Home(es[k].hash, |t|), ds[k], |t|)] == Used(es[k].hash, es[k].item);
    AtInjective(Home(h, |t|), ds[k], d, |t|);
  }

  /** All entries with a hash lie before the first free slot on its way. */
  lemma {:induction false} FreeEnds<T>(t: seq<Slot<T>>, es: seq<Entry<T>>, ds: seq<nat>, own: seq<nat>, d: nat, k: nat)
    requires Holds(t, es, ds, own) && d < |t| && k < |es|
    requires t[At(Home(es[k].hash, |t|), d, |t|)].Free?
    ensures ds[k] < d
  {
    assert Crowded(t, es[k].hash, ds[k]);
    assert t[At(Home(es[k].hash, |t|), ds[k], |t|)].Used?;
  }

  /** Adding an entry at the first free slot from its home keeps the table in order. */
  lemma {:induction false} PlaceHolds<T>(t: seq<Slot<T>>, es: seq<Entry<T>>, ds: seq<nat>, own: seq<nat>,
                                         h: nat, item: T, d: nat)
    requires Holds(t, es, ds, own) && d < |t|
    requires Crowded(t, h, d) && t[At(Home(h, |t|), d, |t|)].Free?
    ensures var s := At(Home(h, |t|), d, |t|);
            Holds(t[s := Used(h, item)], es + [Entry(h, item)], ds + [d], own[s := |es|])
  {
    var s := At(Home(h, |t|), d, |t|);
    var t', es', ds', own' := t[s := Used(h, item)], es + [Entry(h, item)], ds + [d], own[s := |es|];
    UseFreesLess(t, s, Used(h, item));
    assert Shape(t', es', ds', own');
    PlaceSeated(t, es, ds, own, h, item, d);
    assert Packed(t', es', ds', own') by {
      forall k | 0 <= k < |es'|
        ensures Crowded(t', es'[k].hash, ds'[k])
      {
        assert Crowded(t, es'[k].hash, ds'[k]);
      }
    }
    PlaceOwned(t, es, ds, own, h, item, d);
    assert Ordered(t', es', ds', own') by {
      forall a, b | 0 <= a < b < |es'| && es'[a].hash == es'[b].hash
        ensures ds'[a] < ds'[b]
      {
        if b == |es| {
          FreeEnds(t, es, ds, own, d, a);
        }
      }
    }
  }

  lemma {:induction false} PlaceSeated<T>(t: seq<Slot<T>>, es: seq<Entry<T>>, ds: seq<nat>, own: seq<nat>,
                                          h: nat, item: T, d: nat)
    requires Holds(t, es, ds, own) && d < |t| && t[At(Home(h, |t|), d, |t|)].Free?
    requires Shape(t[At(Home(h, |t|), d, |t|) := Used(h, item)], es + [Entry(h, item)], ds + [d],
                   own[At(Home(h, |t|), d, |t|) := |es|])
    ensures var s := At(Home(h, |t|), d, |t|);
            Seated(t[s := Used(h, item)], es + [Entry(h, item)], ds + [d], own[s := |es|])
  {
    var s := At(Home(h, |t|), d, |t|);
    var t', es', ds' := t[s := Used(h, item)], es + [Entry(h, item)], ds + [d];
    forall k | 0 <= k < |es'|
      ensures t'[At(Home(es'[k].hash, |t|), ds'[k], |t|)] == Used(es'[k].hash, es'[k].item)
    {
      if k < |es| {
        assert t[At(Home(es[k].hash, |t|), ds[k], |t|)].Used?;
      }
    }
  }

  lemma {:induction false} PlaceOwned<T>(t: seq<Slot<T>>, es: seq<Entry<T>>, ds: seq<nat>, own: seq<nat>,
                                         h: nat, item: T, d: nat)
    requires Holds(t, es, ds, own) && d < |t| && t[At(Home(h, |t|), d, |t|)].Free?
    requires Shape(t[At(Home(h, |t|), d, |t|) := Used(h, item)], es + [Entry(h, item)], ds + [d],
                   own[At(Home(h, |t|), d, |t|) := |es|])
    ensures var s := At(Home(h, |t|), d, |t|);
            Owned(t[s := Used(h, item)], es + [Entry(h, item)], ds + [d], own[s := |es|])
  {
    var s := At(Home(h, |t|), d, |t|);
    var t', es', ds', own' := t[s := Used(h, item)], es + [Entry(h, item)], ds + [d], own[s := |es|];
    forall q | 0 <= q < |t'| && t'[q].Used?
      ensures own'[q] < |es'| && At(Home(es'[own'[q]].hash, |t'|), ds'[own'[q]], |t'|) == q
    {
      if q != s {
        assert own'[q] == own[q] && own[q] < |es|;
        assert es'[own[q]] == es[own[q]];
      }
    }
  }

  /** Walks from the home slot of `h` to the first free slot. */
  method SeekFree<T>(t: seq<Slot<T>>, h: nat, ghost es: seq<Entry<T>>, ghost ds: seq<nat>, ghost own: seq<nat>)
    returns (s: nat, ghost d: nat)
    requires Holds(t, es, ds, own) && |es| < |t|
    ensures d < |t| && s == At(Home(h, |t|), d, |t|)
    ensures t[s].Free? && Crowded(t, h, d)
  {
    ghost var free := MeetsFree(t, es, ds, own, Home(h, |t|));
    s := Home(h, |t|);
    d := 0;
    while t[s].Used?
      invariant d <= free && s == At(Home(h, |t|), d, |t|) && Crowded(t, h, d)
      decreases free - d
    {
      s := NextSlot(s, |t|);
      d := d + 1;
    }
  }
}
