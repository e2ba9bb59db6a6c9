/** B+ trees as values: what a tree of index pages holds, when it is well formed, and insertion into it. */
module BTreeSpec {

  // ---------------------------------------------------------------- keys and sorted entries

  type Cmp<!K> = (K, K) -> int

  /** What is asked of key comparison: a total preorder whose sign is antisymmetric. */
  ghost predicate TotalOrder<K(!new)>(cmp: Cmp<K>) {
    && (forall a, b {:trigger cmp(a, b), cmp(b, a)} :: cmp(a, b) < 0 <==> cmp(b, a) > 0)
    && (forall a, b, c {:trigger cmp(a, b), cmp(b, c), cmp(a, c)} :: cmp(a, b) <= 0 && cmp(b, c) <= 0 ==> cmp(a, c) <= 0)
  }

  datatype Entry<K> = Entry(key: K, row: nat)

  ghost predicate Sorted<K>(cmp: Cmp<K>, es: seq<Entry<K>>) {
    forall i, j :: 0 <= i < j < |es| ==> cmp(es[i].key, es[j].key) <= 0
  }

  ghost predicate AllLe<K>(cmp: Cmp<K>, es: seq<Entry<K>>, k: K) {
    forall i :: 0 <= i < |es| ==> cmp(es[i].key, k) <= 0
  }

  ghost predicate AllGt<K>(cmp: Cmp<K>, es: seq<Entry<K>>, k: K) {
    forall i :: 0 <= i < |es| ==> cmp(es[i].key, k) > 0
  }

  /** Sorted insertion: the new entry goes after every entry whose key is not greater. */
  function InsertAfter<K>(cmp: Cmp<K>, es: seq<Entry<K>>, e: Entry<K>): (r: seq<Entry<K>>) {
    if es == [] || cmp(es[0].key, e.key) > 0 then [e] + es
    else [es[0]] + InsertAfter(cmp, es[1..], e)
  }

  lemma {:induction false} InsertAfterSplit<K>(cmp: Cmp<K>, a: seq<Entry<K>>, b: seq<Entry<K>>, e: Entry<K>)
    requires AllLe(cmp, a, e.key)
    ensures InsertAfter(cmp, a + b, e) == a + InsertAfter(cmp, b, e)
  {
    if a == [] {
      assert a + b == b;
    } else {
      InsertAfterSplit(cmp, a[1..], b, e);
      assert (a + b)[1..] == a[1..] + b;
      assert a == [a[0]] + a[1..];
    }
  }

  lemma {:induction false} InsertAfterBefore<K>(cmp: Cmp<K>, a: seq<Entry<K>>, b: seq<Entry<K>>, e: Entry<K>)
    requires AllGt(cmp, b, e.key)
    ensures InsertAfter(cmp, a + b, e) == InsertAfter(cmp, a, e) + b
  {
    if a == [] {
      assert a + b == b;
    } else {
      assert (a + b)[1..] == a[1..] + b;
      if cmp(a[0].key, e.key) <= 0 {
        InsertAfterBefore(cmp, a[1..], b, e);
      } else {
        assert [e] + (a + b) == [e] + a + b;
      }
    }
  }

  /** Where the entry goes: `p` splits the entries into those not greater and those greater. */
  lemma {:induction false} InsertAfterAt<K>(cmp: Cmp<K>, es: seq<Entry<K>>, e: Entry<K>, p: nat)
    requires p <= |es| && AllLe(cmp, es[..p], e.key) && AllGt(cmp, es[p..], e.key)
    ensures InsertAfter(cmp, es, e) == es[..p] + [e] + es[p..]
  {
    InsertAfterSplit(cmp, es[..p], es[p..], e);
    assert es == es[..p] + es[p..];
    assert InsertAfter(cmp, es[p..], e) == [e] + es[p..];
  }

  // ---------------------------------------------------------------- positions in a node

  ghost predicate SortedKeys<K>(cmp: Cmp<K>, keys: seq<K>) {
    forall i, j :: 0 <= i < j < |keys| ==> cmp(keys[i], keys[j]) <= 0
  }

  /** The number of leading keys not greater than `k`: on sorted keys, the slot to the right of all of them. */
  function Slot<K>(cmp: Cmp<K>, keys: seq<K>, k: K): (s: nat)
    ensures s <= |keys|
    ensures forall i :: 0 <= i < s ==> cmp(keys[i], k) <= 0
    ensures s < |keys| ==> cmp(keys[s], k) > 0
  {
    if keys == [] || cmp(keys[0], k) > 0 then 0 else 1 + Slot(cmp, keys[1..], k)
  }

  function KeysOf<K>(es: seq<Entry<K>>): (ks: seq<K>)
    ensures |ks| == |es| && forall i :: 0 <= i < |es| ==> ks[i] == es[i].key
  {
    seq(|es|, i requires 0 <= i < |es| => es[i].key)
  }

  /** On sorted entries the slot of `k` splits them into those not greater and those greater than `k`. */
  lemma {:induction false} SlotSplits<K(!new)>(cmp: Cmp<K>, es: seq<Entry<K>>, k: K)
    requires TotalOrder(cmp) && Sorted(cmp, es)
    ensures var p := Slot(cmp, KeysOf(es), k); AllLe(cmp, es[..p], k) && AllGt(cmp, es[p..], k)
  {
    var p := Slot(cmp, KeysOf(es), k);
    if p < |es| {
      AllAbove(cmp, es[p..], k);
    }
  }

  lemma {:induction false} AllAbove<K(!new)>(cmp: Cmp<K>, es: seq<Entry<K>>, k: K)
    requires TotalOrder(cmp) && Sorted(cmp, es) && es != [] && cmp(es[0].key, k) > 0
    ensures AllGt(cmp, es, k)
  {
    forall i | 0 < i < |es|
      ensures cmp(es[i].key, k) > 0
    {
      var a, b := es[0].key, es[i].key;
      assert cmp(a, b) <= 0;
      assert cmp(b, k) <= 0 ==> cmp(a, k) <= 0;
    }
  }

  lemma {:induction false} InsertAfterAdds<K>(cmp: Cmp<K>, es: seq<Entry<K>>, e: Entry<K>)
    ensures multiset(InsertAfter(cmp, es, e)) == multiset(es) + multiset{e}
  {
    if es != [] {
      InsertAfterAdds(cmp, es[1..], e);
      assert es == [es[0]] + es[1..];
    }
  }

  lemma {:induction false} InsertAfterSorted<K(!new)>(cmp: Cmp<K>, es: seq<Entry<K>>, e: Entry<K>)
    requires TotalOrder(cmp) && Sorted(cmp, es)
    ensures Sorted(cmp, InsertAfter(cmp, es, e))
  {
    SlotSplits(cmp, es, e.key);
    InsertAtSorted(cmp, es, e, Slot(cmp, KeysOf(es), e.key));
  }

  lemma {:induction false} InsertAtSorted<K(!new)>(cmp: Cmp<K>, es: seq<Entry<K>>, e: Entry<K>, p: nat)
    requires TotalOrder(cmp) && Sorted(cmp, es)
    requires p <= |es| && AllLe(cmp, es[..p], e.key) && AllGt(cmp, es[p..], e.key)
    ensures Sorted(cmp, InsertAfter(cmp, es, e))
  {
    SortedHalves(cmp, es, p);
    SortedJoin(cmp, es[..p], e, es[p..]);
    InsertAfterAt(cmp, es, e, p);
  }

  lemma {:induction false} SortedHalves<K>(cmp: Cmp<K>, es: seq<Entry<K>>, p: nat)
    requires Sorted(cmp, es) && p <= |es|
    ensures Sorted(cmp, es[..p]) && Sorted(cmp, es[p..])
  {
  }

  lemma {:induction false} SortedJoin<K(!new)>(cmp: Cmp<K>, a: seq<Entry<K>>, e: Entry<K>, b: seq<Entry<K>>)
    requires TotalOrder(cmp) && Sorted(cmp, a) && Sorted(cmp, b) && AllLe(cmp, a, e.key) && AllGt(cmp, b, e.key)
    ensures Sorted(cmp, a + [e] + b)
  {
    var r := a + [e] + b;
    forall i, j | 0 <= i < j < |r|
      ensures cmp(r[i].key, r[j].key) <= 0
    {
      if j > |a| {
        assert cmp(b[j - |a| - 1].key, e.key) > 0 && cmp(e.key, b[j - |a| - 1].key) < 0;
      }
      if i < |a| {
        assert cmp(a[i].key, e.key) <= 0;
      }
    }
  }

  // ---------------------------------------------------------------- trees

  datatype Tree<K> =
    | Leaf(id: nat, entries: seq<Entry<K>>)
    | Node(id: nat, keys: seq<K>, kids: seq<Tree<K>>)

  /** The entries of a tree, in order. */
  function Entries<K>(t: Tree<K>): seq<Entry<K>>
    decreases t
  {
    match t
    case Leaf(_, es) => es
    case Node(_, _, kids) => EntriesAll(kids)
  }

  function EntriesAll<K>(ts: seq<Tree<K>>): seq<Entry<K>>
    decreases ts
  {
    if ts == [] then [] else Entries(ts[0]) + EntriesAll(ts[1..])
  }

  /** Leaves all at depth `h`, every node within capacity, every separator the first key of the subtree to its right. */
  ghost predicate Sound<K>(cap: nat, h: nat, t: Tree<K>)
    decreases t
  {
    match t
    case Leaf(_, es) => h == 0 && 1 <= |es| <= cap
    case Node(_, keys, kids) =>
      && h > 0 && |kids| == |keys| + 1 && |keys| <= cap
      && (forall i :: 0 <= i < |kids| ==> Sound(cap, h - 1, kids[i]))
      && Separates(keys, kids)
  }

  ghost predicate Separates<K>(keys: seq<K>, kids: seq<Tree<K>>)
    requires |kids| == |keys| + 1
  {
    forall i :: 0 < i < |kids| ==> StartsWith(kids[i], keys[i - 1])
  }

  ghost predicate StartsWith<K>(t: Tree<K>, k: K) {
    Entries(t) != [] && Entries(t)[0].key == k
  }

  ghost predicate SoundAll<K>(cap: nat, h: nat, ts: seq<Tree<K>>) {
    forall i :: 0 <= i < |ts| ==> Sound(cap, h, ts[i])
  }

  lemma {:induction false} EntriesAllConcat<K>(a: seq<Tree<K>>, b: seq<Tree<K>>)
    ensures EntriesAll(a + b) == EntriesAll(a) + EntriesAll(b)
  {
    if a == [] {
      assert a + b == b;
    } else {
      EntriesAllConcat(a[1..], b);
      assert (a + b)[1..] == a[1..] + b;
    }
  }

  /** The entries of the children, seen from child `s`. */
  lemma {:induction false} EntriesAround<K>(ts: seq<Tree<K>>, s: nat)
    requires s < |ts|
    ensures EntriesAll(ts) == EntriesAll(ts[..s]) + Entries(ts[s]) + EntriesAll(ts[s + 1..])
  {
    var rest := ts[s..];
    assert ts == ts[..s] + rest;
    EntriesAllConcat(ts[..s], rest);
    assert rest[0] == ts[s] && rest[1..] == ts[s + 1..];
    assert EntriesAll(rest) == Entries(ts[s]) + EntriesAll(ts[s + 1..]);
  }

  lemma {:induction false} SoundNonEmpty<K>(cap: nat, h: nat, t: Tree<K>)
    requires Sound(cap, h, t)
    ensures Entries(t) != []
    decreases t
  {
    match t
    case Leaf(_, _) =>
    case Node(_, _, kids) =>
      SoundNonEmpty(cap, h - 1, kids[0]);
  }

  /** The first entry of a non-empty row of trees is that of its first tree. */
  lemma {:induction false} FirstOfAll<K>(cap: nat, h: nat, ts: seq<Tree<K>>)
    requires ts != [] && SoundAll(cap, h, ts)
    ensures Entries(ts[0]) != [] && EntriesAll(ts) != [] && EntriesAll(ts)[0] == Entries(ts[0])[0]
  {
    SoundNonEmpty(cap, h, ts[0]);
  }

  lemma {:induction false} SortedParts<K>(cmp: Cmp<K>, a: seq<Entry<K>>, b: seq<Entry<K>>, c: seq<Entry<K>>)
    requires Sorted(cmp, a + b + c)
    ensures Sorted(cmp, a) && Sorted(cmp, b) && Sorted(cmp, c)
    ensures forall i, j :: 0 <= i < |a| && 0 <= j < |b| ==> cmp(a[i].key, b[j].key) <= 0
    ensures forall i, j :: 0 <= i < |b| && 0 <= j < |c| ==> cmp(b[i].key, c[j].key) <= 0
    ensures forall i, j :: 0 <= i < |a| && 0 <= j < |c| ==> cmp(a[i].key, c[j].key) <= 0
  {
    var s := a + b + c;
    assert forall i :: 0 <= i < |a| ==> s[i] == a[i];
    assert forall i :: 0 <= i < |b| ==> s[|a| + i] == b[i];
    assert forall i :: 0 <= i < |c| ==> s[|a| + |b| + i] == c[i];
  }

  lemma {:induction false} ChildParts<K>(cmp: Cmp<K>, ts: seq<Tree<K>>, s: nat)
    requires s < |ts| && Sorted(cmp, EntriesAll(ts))
    ensures var a, b, c := EntriesAll(ts[..s]), Entries(ts[s]), EntriesAll(ts[s + 1..]);
            && Sorted(cmp, a) && Sorted(cmp, b) && Sorted(cmp, c)
            && (forall i :: 0 <= i < |a| && b != [] ==> cmp(a[i].key, b[0].key) <= 0)
  {
    EntriesAround(ts, s);
    SortedParts(cmp, EntriesAll(ts[..s]), Entries(ts[s]), EntriesAll(ts[s + 1..]));
  }

  lemma {:induction false} AllBelow<K(!new)>(cmp: Cmp<K>, es: seq<Entry<K>>, x: K, k: K)
    requires TotalOrder(cmp) && AllLe(cmp, es, x) && cmp(x, k) <= 0
    ensures AllLe(cmp, es, k)
  {
  }

  /** Around the slot of `k`, what lies in children to the left is not greater than `k`, to the right greater. */
  lemma {:induction false} AroundSlot<K(!new)>(cmp: Cmp<K>, cap: nat, h: nat, t: Tree<K>, k: K)
    requires TotalOrder(cmp) && Sound(cap, h, t) && t.Node? && Sorted(cmp, Entries(t))
    ensures var s := Slot(cmp, t.keys, k);
            && s < |t.kids|
            && AllLe(cmp, EntriesAll(t.kids[..s]), k)
            && AllGt(cmp, EntriesAll(t.kids[s + 1..]), k)
            && Sorted(cmp, Entries(t.kids[s]))
            && Entries(t.kids[s]) != []
            && (s > 0 ==> cmp(Entries(t.kids[s])[0].key, k) <= 0)
  {
    var s := Slot(cmp, t.keys, k);
    var a, b, c := EntriesAll(t.kids[..s]), Entries(t.kids[s]), EntriesAll(t.kids[s + 1..]);
    ChildParts(cmp, t.kids, s);
    SoundNonEmpty(cap, h - 1, t.kids[s]);
    if s > 0 {
      assert StartsWith(t.kids[s], t.keys[s - 1]);
      AllBelow(cmp, a, b[0].key, k);
    } else {
      assert t.kids[..s] == [];
    }
    if s < |t.keys| {
      FirstOfAll(cap, h - 1, t.kids[s + 1..]);
      assert StartsWith(t.kids[s + 1], t.keys[s]);
      AllAbove(cmp, c, k);
    } else {
      assert t.kids[s + 1..] == [];
    }
  }
}
