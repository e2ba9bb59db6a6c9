/** Insertion into a tree value: what one insertion returns at each level, with the pages it takes on the way. */
module BTreeInsert {
  import opened BTreeSpec

  /** A subtree after an insertion: still one tree, or split in two around a separator. */
  datatype Grown<K> = One(t: Tree<K>) | Two(left: Tree<K>, sep: K, right: Tree<K>)

  function Splice<T>(xs: seq<T>, s: nat, ys: seq<T>, drop: nat): (r: seq<T>)
    requires s + drop <= |xs|
    ensures |r| == |xs| + |ys| - drop
  {
    xs[..s] + ys + xs[s + drop..]
  }

  function SplitLeaf<K>(id: nat, es: seq<Entry<K>>, next: nat): (g: Grown<K>)
    requires |es| >= 2
  {
    var mid := |es| / 2;
    Two(Leaf(id, es[..mid]), es[mid].key, Leaf(next, es[mid..]))
  }

  function SplitNode<K>(id: nat, keys: seq<K>, kids: seq<Tree<K>>, next: nat): (g: Grown<K>)
    requires |keys| >= 2 && |kids| == |keys| + 1
  {
    var mid := |keys| / 2;
    Two(Node(id, keys[..mid], kids[..mid + 1]), keys[mid], Node(next, keys[mid + 1..], kids[mid + 1..]))
  }

  /** A child was replaced by one tree or by two: the node keeps its page, and splits when it was full. */
  function Absorb<K>(cap: nat, t: Tree<K>, s: nat, g: Grown<K>, next: nat): (r: (Grown<K>, nat))
    requires cap >= 1 && t.Node? && |t.kids| == |t.keys| + 1 && |t.keys| <= cap && s < |t.kids|
    ensures next <= r.1 <= next + 1
  {
    match g
    case One(k) => (One(Node(t.id, t.keys, t.kids[s := k])), next)
    case Two(l, sep, r) =>
      var keys, kids := Splice(t.keys, s, [sep], 0), Splice(t.kids, s, [l, r], 1);
      if |t.keys| < cap then (One(Node(t.id, keys, kids)), next) else (SplitNode(t.id, keys, kids, next), next + 1)
  }

  function InsertLeaf<K>(cmp: Cmp<K>, cap: nat, t: Tree<K>, e: Entry<K>, next: nat): (r: (Grown<K>, nat))
    requires cap >= 1 && t.Leaf? && |t.entries| <= cap
    ensures next <= r.1 <= next + 1
  {
    var es := Splice(t.entries, Slot(cmp, KeysOf(t.entries), e.key), [e], 0);
    if |t.entries| < cap then (One(Leaf(t.id, es)), next) else (SplitLeaf(t.id, es, next), next + 1)
  }

  /** Insertion down the path of the key; `next` is the next free page, and the second result the one after. */
  ghost function InsertTree<K>(cmp: Cmp<K>, cap: nat, h: nat, t: Tree<K>, e: Entry<K>, next: nat): (r: (Grown<K>, nat))
    requires cap >= 1 && Sound(cap, h, t)
    ensures next <= r.1
    decreases t
  {
    match t
    case Leaf(_, _) => InsertLeaf(cmp, cap, t, e, next)
    case Node(_, keys, kids) =>
      var s := Slot(cmp, keys, e.key);
      var (g, n) := InsertTree(cmp, cap, h - 1, kids[s], e, next);
      Absorb(cap, t, s, g, n)
  }

  // ---------------------------------------------------------------- entries and soundness

  ghost function GrownEntries<K>(g: Grown<K>): seq<Entry<K>> {
    match g
    case One(t) => Entries(t)
    case Two(l, _, r) => Entries(l) + Entries(r)
  }

  ghost predicate GrownSound<K>(cap: nat, h: nat, g: Grown<K>) {
    match g
    case One(t) => Sound(cap, h, t)
    case Two(l, sep, r) => Sound(cap, h, l) && Sound(cap, h, r) && StartsWith(r, sep)
  }

  lemma {:induction false} InsertLeafOk<K(!new)>(cmp: Cmp<K>, cap: nat, t: Tree<K>, e: Entry<K>, next: nat)
    requires TotalOrder(cmp) && cap >= 1 && t.Leaf? && Sound(cap, 0, t) && Sorted(cmp, t.entries)
    ensures var g := InsertLeaf(cmp, cap, t, e, next).0;
            GrownSound(cap, 0, g) && GrownEntries(g) == InsertAfter(cmp, t.entries, e)
  {
    var p := Slot(cmp, KeysOf(t.entries), e.key);
    SlotSplits(cmp, t.entries, e.key);
    InsertAfterAt(cmp, t.entries, e, p);
    var es := Splice(t.entries, p, [e], 0);
    assert es[..|es| / 2] + es[|es| / 2..] == es;
  }

  lemma {:induction false} SplitNodeOk<K>(cap: nat, h: nat, id: nat, keys: seq<K>, kids: seq<Tree<K>>, next: nat)
    requires cap >= 1 && h > 0 && |keys| == cap + 1 && |kids| == cap + 2 && SoundAll(cap, h - 1, kids) && Separates(keys, kids)
    ensures var g := SplitNode(id, keys, kids, next); GrownSound(cap, h, g) && GrownEntries(g) == EntriesAll(kids)
  {
    var mid := |keys| / 2;
    var left, right := kids[..mid + 1], kids[mid + 1..];
    assert left + right == kids;
    EntriesAllConcat(left, right);
    FirstOfAll(cap, h - 1, right);
    SeparatesHalves(keys, kids, mid);
  }

  lemma {:induction false} SeparatesHalves<K>(keys: seq<K>, kids: seq<Tree<K>>, mid: nat)
    requires |kids| == |keys| + 1 && Separates(keys, kids) && mid < |keys|
    ensures Separates(keys[..mid], kids[..mid + 1]) && Separates(keys[mid + 1..], kids[mid + 1..])
    ensures StartsWith(kids[mid + 1], keys[mid])
  {
    var ks, ts := keys[mid + 1..], kids[mid + 1..];
    forall i | 0 < i < |ts|
      ensures StartsWith(ts[i], ks[i - 1])
    {
      assert StartsWith(kids[mid + 1 + i], keys[mid + i]);
    }
  }

  /** A child keeps the first key of the subtree when the new key goes to its right. */
  ghost predicate SameFirst<K>(s: nat, was: Tree<K>, first: Tree<K>) {
    s > 0 ==> Entries(was) != [] && Entries(first) != [] && Entries(first)[0].key == Entries(was)[0].key
  }

  lemma {:induction false} ReplaceOk<K>(cap: nat, h: nat, t: Tree<K>, s: nat, k: Tree<K>)
    requires h > 0 && t.Node? && Sound(cap, h, t) && s < |t.kids| && Sound(cap, h - 1, k) && SameFirst(s, t.kids[s], k)
    ensures Sound(cap, h, Node(t.id, t.keys, t.kids[s := k]))
    ensures EntriesAll(t.kids[s := k]) == EntriesAll(t.kids[..s]) + Entries(k) + EntriesAll(t.kids[s + 1..])
  {
    var kids := t.kids[s := k];
    EntriesAround(kids, s);
    assert kids[..s] == t.kids[..s] && kids[s + 1..] == t.kids[s + 1..];
  }

  lemma {:induction false} WidenSeparates<K>(t: Tree<K>, s: nat, l: Tree<K>, sep: K, r: Tree<K>)
    requires t.Node? && |t.kids| == |t.keys| + 1 && Separates(t.keys, t.kids) && s < |t.kids| && SameFirst(s, t.kids[s], l)
    requires StartsWith(r, sep)
    ensures Separates(Splice(t.keys, s, [sep], 0), Splice(t.kids, s, [l, r], 1))
  {
    var keys, kids := Splice(t.keys, s, [sep], 0), Splice(t.kids, s, [l, r], 1);
    forall i | 0 < i < |kids|
      ensures StartsWith(kids[i], keys[i - 1])
    {
      if i < s {
        assert kids[i] == t.kids[i] && keys[i - 1] == t.keys[i - 1];
      } else if i == s {
        assert kids[i] == l && keys[i - 1] == t.keys[i - 1];
        assert StartsWith(t.kids[i], t.keys[i - 1]);
      } else if i == s + 1 {
        assert kids[i] == r && keys[i - 1] == sep;
      } else {
        assert kids[i] == t.kids[i - 1] && keys[i - 1] == t.keys[i - 2];
      }
    }
  }

  lemma {:induction false} WidenEntries<K>(kids: seq<Tree<K>>, s: nat, l: Tree<K>, r: Tree<K>)
    requires s < |kids|
    ensures EntriesAll(Splice(kids, s, [l, r], 1)) == EntriesAll(kids[..s]) + (Entries(l) + Entries(r)) + EntriesAll(kids[s + 1..])
  {
    var mid: seq<Tree<K>> := [l, r];
    EntriesAllConcat(kids[..s] + mid, kids[s + 1..]);
    EntriesAllConcat(kids[..s], mid);
    assert mid[1..] == [r];
    assert EntriesAll([r]) == Entries(r) + EntriesAll([r][1..]);
    assert EntriesAll(mid) == Entries(l) + Entries(r);
  }

  lemma {:induction false} AbsorbOk<K>(cap: nat, h: nat, t: Tree<K>, s: nat, g: Grown<K>, next: nat)
    requires cap >= 1 && h > 0 && t.Node? && Sound(cap, h, t) && s < |t.kids| && GrownSound(cap, h - 1, g)
    requires SameFirst(s, t.kids[s], if g.One? then g.t else g.left)
    ensures var g' := Absorb(cap, t, s, g, next).0;
            && GrownSound(cap, h, g')
            && GrownEntries(g') == EntriesAll(t.kids[..s]) + GrownEntries(g) + EntriesAll(t.kids[s + 1..])
  {
    match g
    case One(k) => ReplaceOk(cap, h, t, s, k);
    case Two(l, sep, r) =>
      var keys, kids := Splice(t.keys, s, [sep], 0), Splice(t.kids, s, [l, r], 1);
      WidenSeparates(t, s, l, sep, r);
      WidenEntries(t.kids, s, l, r);
      assert SoundAll(cap, h - 1, kids);
      if |t.keys| >= cap {
        SplitNodeOk(cap, h, t.id, keys, kids, next);
      }
  }

  /** Insertion refines sorted insertion and keeps the tree well formed. */
  lemma {:induction false} InsertOk<K(!new)>(cmp: Cmp<K>, cap: nat, h: nat, t: Tree<K>, e: Entry<K>, next: nat)
    requires TotalOrder(cmp) && cap >= 1 && Sound(cap, h, t) && Sorted(cmp, Entries(t))
    ensures var g := InsertTree(cmp, cap, h, t, e, next).0;
            GrownSound(cap, h, g) && GrownEntries(g) == InsertAfter(cmp, Entries(t), e)
    decreases t
  {
    match t
    case Leaf(_, _) => InsertLeafOk(cmp, cap, t, e, next);
    case Node(_, keys, kids) =>
      var s := Slot(cmp, keys, e.key);
      AroundSlot(cmp, cap, h, t, e.key);
      InsertOk(cmp, cap, h - 1, kids[s], e, next);
      var (g, n) := InsertTree(cmp, cap, h - 1, kids[s], e, next);
      InsertNodeOk(cmp, cap, h, t, s, e, g, n);
  }

  lemma {:induction false} InsertNodeOk<K>(cmp: Cmp<K>, cap: nat, h: nat, t: Tree<K>, s: nat, e: Entry<K>, g: Grown<K>, n: nat)
    requires cap >= 1 && h > 0 && t.Node? && Sound(cap, h, t) && s < |t.kids| && GrownSound(cap, h - 1, g)
    requires GrownEntries(g) == InsertAfter(cmp, Entries(t.kids[s]), e)
    requires AllLe(cmp, EntriesAll(t.kids[..s]), e.key) && AllGt(cmp, EntriesAll(t.kids[s + 1..]), e.key)
    requires Entries(t.kids[s]) != [] && (s > 0 ==> cmp(Entries(t.kids[s])[0].key, e.key) <= 0)
    ensures var g' := Absorb(cap, t, s, g, n).0;
            GrownSound(cap, h, g') && GrownEntries(g') == InsertAfter(cmp, Entries(t), e)
  {
    FirstKept(cmp, cap, h - 1, s, t.kids[s], e, g);
    AbsorbOk(cap, h, t, s, g, n);
    InsertInside(cmp, t.kids, s, e, GrownEntries(g));
  }

  lemma {:induction false} FirstKept<K>(cmp: Cmp<K>, cap: nat, h: nat, s: nat, was: Tree<K>, e: Entry<K>, g: Grown<K>)
    requires GrownSound(cap, h, g) && GrownEntries(g) == InsertAfter(cmp, Entries(was), e)
    requires Entries(was) != [] && (s > 0 ==> cmp(Entries(was)[0].key, e.key) <= 0)
    ensures SameFirst(s, was, if g.One? then g.t else g.left)
  {
    var first := if g.One? then g.t else g.left;
    SoundNonEmpty(cap, h, first);
    assert GrownEntries(g)[0] == Entries(first)[0];
  }

  lemma {:induction false} InsertInside<K>(cmp: Cmp<K>, kids: seq<Tree<K>>, s: nat, e: Entry<K>, mid: seq<Entry<K>>)
    requires s < |kids| && mid == InsertAfter(cmp, Entries(kids[s]), e)
    requires AllLe(cmp, EntriesAll(kids[..s]), e.key) && AllGt(cmp, EntriesAll(kids[s + 1..]), e.key)
    ensures EntriesAll(kids[..s]) + mid + EntriesAll(kids[s + 1..]) == InsertAfter(cmp, EntriesAll(kids), e)
  {
    var a, b, c := EntriesAll(kids[..s]), Entries(kids[s]), EntriesAll(kids[s + 1..]);
    EntriesAround(kids, s);
    InsertAfterBefore(cmp, a + b, c, e);
    InsertAfterSplit(cmp, a, b, e);
  }
}
