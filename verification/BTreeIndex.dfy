/** The index over its pages: searches, insertion with splits up the recorded path. */
module BTreeIndexFile {
  import opened BTreeSpec
  import opened BTreeInsert
  import opened BTreePages

  datatype Step = Step(page: nat, slot: nat)

  /** The separators of a node are in order. */
  lemma {:induction false} NodeKeysSorted<K(!new)>(cmp: Cmp<K>, cap: nat, h: nat, t: Tree<K>)
    requires TotalOrder(cmp) && t.Node? && Sound(cap, h, t) && Sorted(cmp, Entries(t))
    ensures SortedKeys(cmp, t.keys)
  {
    forall i, j | 0 <= i < j < |t.keys|
      ensures cmp(t.keys[i], t.keys[j]) <= 0
    {
      FirstKeysInOrder(cmp, t.kids, i + 1, j + 1);
      assert StartsWith(t.kids[i + 1], t.keys[i]) && StartsWith(t.kids[j + 1], t.keys[j]);
    }
  }

  lemma {:induction false} FirstKeysInOrder<K>(cmp: Cmp<K>, kids: seq<Tree<K>>, i: nat, j: nat)
    requires i < j < |kids| && Sorted(cmp, EntriesAll(kids)) && Entries(kids[i]) != [] && Entries(kids[j]) != []
    ensures cmp(Entries(kids[i])[0].key, Entries(kids[j])[0].key) <= 0
  {
    var a, b := EntriesAll(kids[..j]), Entries(kids[j]);
    EntriesAround(kids, j);
    SortedParts(cmp, a, b, EntriesAll(kids[j + 1..]));
    EntriesAround(kids[..j], i);
    assert kids[..j][i] == kids[i];
    var p := |EntriesAll(kids[..j][..i])|;
    assert a[p] == Entries(kids[i])[0];
  }

  // ---------------------------------------------------------------- binary searches

  method FindSlot<K(!new)>(cmp: Cmp<K>, keys: seq<K>, k: K) returns (s: nat)
    requires TotalOrder(cmp) && SortedKeys(cmp, keys)
    ensures s == Slot(cmp, keys, k)
  {
    var lo, hi := 0, |keys|;
    while lo < hi
      invariant 0 <= lo <= hi <= |keys|
      invariant forall i :: 0 <= i < lo ==> cmp(keys[i], k) <= 0
      invariant hi < |keys| ==> cmp(keys[hi], k) > 0
    {
      var mid := (lo + hi) / 2;
      if cmp(keys[mid], k) <= 0 {
        forall i | lo <= i < mid
          ensures cmp(keys[i], k) <= 0
        {
          assert cmp(keys[i], keys[mid]) <= 0;
        }
        lo := mid + 1;
      } else {
        hi := mid;
      }
    }
    s := lo;
  }

  /** The first entry not below `lo`. */
  method FindScanStart<K(!new)>(cmp: Cmp<K>, es: seq<Entry<K>>, lo: K) returns (s: nat)
    requires TotalOrder(cmp) && Sorted(cmp, es)
    ensures s <= |es|
    ensures forall i :: 0 <= i < s ==> cmp(es[i].key, lo) < 0
    ensures forall i :: s <= i < |es| ==> cmp(es[i].key, lo) >= 0
  {
    var left, right := 0, |es|;
    while left < right
      invariant 0 <= left <= right <= |es|
      invariant forall i :: 0 <= i < left ==> cmp(es[i].key, lo) < 0
      invariant forall i :: right <= i < |es| ==> cmp(es[i].key, lo) >= 0
    {
      var mid := (left + right) / 2;
      var m := es[mid].key;
      if cmp(m, lo) < 0 {
        forall i | left <= i < mid
          ensures cmp(es[i].key, lo) < 0
        {
          BelowBoth(cmp, es[i].key, m, lo);
        }
        left := mid + 1;
      } else {
        forall i | mid < i < right
          ensures cmp(es[i].key, lo) >= 0
        {
          BelowBoth(cmp, m, es[i].key, lo);
        }
        right := mid;
      }
    }
    s := left;
  }

  lemma BelowBoth<K(!new)>(cmp: Cmp<K>, a: K, b: K, c: K)
    requires TotalOrder(cmp) && cmp(a, b) <= 0
    ensures cmp(b, c) < 0 ==> cmp(a, c) < 0
  {
    assert cmp(c, a) <= 0 ==> cmp(c, b) <= 0;
    assert cmp(b, c) < 0 <==> cmp(c, b) > 0;
    assert cmp(a, c) < 0 <==> cmp(c, a) > 0;
  }

  // ---------------------------------------------------------------- the recorded path

  /** One step down: the child in the slot of `k`, with the leaf chained after it. */
  ghost predicate Down<K>(cmp: Cmp<K>, k: K, step: Step, t: Tree<K>, link: Link, kid: Tree<K>, kidLink: Link) {
    && t.Node? && step == Step(t.id, Slot(cmp, t.keys, k)) && step.slot < |t.kids|
    && kid == t.kids[step.slot] && kidLink == NextLink(t.kids, step.slot, link)
  }

  /** A well-formed subtree of height `h`, stored in `pages`. */
  ghost predicate Standing<K>(cmp: Cmp<K>, cap: nat, h: int, t: Tree<K>, pages: Pages<K>, link: Link, next: nat) {
    && h >= 0 && Sound(cap, h, t) && Sorted(cmp, Entries(t)) && Distinct(t) && Below(t, next) && Stored(pages, t, link)
  }

  lemma {:induction false} StandingDown<K(!new)>(cmp: Cmp<K>, cap: nat, h: int, t: Tree<K>, pages: Pages<K>, link: Link, next: nat, k: K)
    requires TotalOrder(cmp) && Standing(cmp, cap, h, t, pages, link, next) && t.Node?
    ensures var s := Slot(cmp, t.keys, k);
            s < |t.kids| && Standing(cmp, cap, h - 1, t.kids[s], pages, NextLink(t.kids, s, link), next)
  {
    AroundSlot(cmp, cap, h, t, k);
    KidBelow(t, Slot(cmp, t.keys, k), next);
  }

  lemma {:induction false} PageKind<K>(cmp: Cmp<K>, cap: nat, h: int, t: Tree<K>, pages: Pages<K>, link: Link, next: nat)
    requires Standing(cmp, cap, h, t, pages, link, next)
    ensures t.id in pages && (pages[t.id].NodePage? <==> t.Node?)
  {
  }

  /** The path from the root to a leaf that the key of an insertion or a search takes. */
  ghost predicate Spine<K>(cmp: Cmp<K>, k: K, path: seq<Step>, spine: seq<Tree<K>>, links: seq<Link>) {
    && |spine| == |links| == |path| + 1
    && forall i :: 0 <= i < |path| ==> Down(cmp, k, path[i], spine[i], links[i], spine[i + 1], links[i + 1])
  }

  lemma {:induction false} ExtendSpine<K>(cmp: Cmp<K>, k: K, path: seq<Step>, spine: seq<Tree<K>>, links: seq<Link>, step: Step, kid: Tree<K>, link: Link)
    requires Spine(cmp, k, path, spine, links) && Down(cmp, k, step, spine[|path|], links[|path|], kid, link)
    ensures Spine(cmp, k, path + [step], spine + [kid], links + [link])
  {
    var p, s, l := path + [step], spine + [kid], links + [link];
    forall i | 0 <= i < |p|
      ensures Down(cmp, k, p[i], s[i], l[i], s[i + 1], l[i + 1])
    {
      if i < |path| {
        assert Down(cmp, k, path[i], spine[i], links[i], spine[i + 1], links[i + 1]);
      }
    }
  }

  /** Every subtree on the path is well formed and stored. */
  lemma {:induction false} SpineStanding<K(!new)>(cmp: Cmp<K>, cap: nat, h: nat, k: K, path: seq<Step>, spine: seq<Tree<K>>, links: seq<Link>, pages: Pages<K>, next: nat, i: nat)
    requires TotalOrder(cmp) && Spine(cmp, k, path, spine, links) && i <= |path|
    requires Standing(cmp, cap, h, spine[0], pages, links[0], next)
    ensures Standing(cmp, cap, h - i, spine[i], pages, links[i], next)
  {
    hide Sound, Sorted, Entries, Distinct, Below, Stored, TotalOrder;
    if i > 0 {
      SpineStanding(cmp, cap, h, k, path, spine, links, pages, next, i - 1);
      assert Down(cmp, k, path[i - 1], spine[i - 1], links[i - 1], spine[i - 1 + 1], links[i - 1 + 1]);
      StandingDown(cmp, cap, h - (i - 1), spine[i - 1], pages, links[i - 1], next, k);
    }
  }

  /** The subtree `t` of the pages `a` has taken the entry in the pages `b`. */
  ghost predicate Rising<K>(cmp: Cmp<K>, cap: nat, h: int, e: Entry<K>, a: Pages<K>, b: Pages<K>, lo: nat, t: Tree<K>, link: Link, g: Grown<K>, n: nat) {
    && h >= 0 && cap >= 1 && Sound(cap, h, t)
    && (g, n) == InsertTree(cmp, cap, h, t, e, lo)
    && GrownStored(b, g, link) && Untouched(a, b, t, lo)
  }

  lemma {:induction false} Rise<K(!new)>(cmp: Cmp<K>, cap: nat, h: int, e: Entry<K>, a: Pages<K>, b: Pages<K>, lo: nat, step: Step, t: Tree<K>, link: Link, kid: Tree<K>, kidLink: Link, g: Grown<K>, n: nat)
    requires TotalOrder(cmp) && Standing(cmp, cap, h, t, a, link, lo) && Down(cmp, e.key, step, t, link, kid, kidLink)
    requires Rising(cmp, cap, h - 1, e, a, b, lo, kid, kidLink, g, n)
    ensures ChildGrown(a, b, t, step.slot, g, link, lo, n) && |t.kids| == |t.keys| + 1 && |t.keys| <= cap
    ensures InsertTree(cmp, cap, h, t, e, lo) == Absorb(cap, t, step.slot, g, n)
  {
    KidBelow(t, step.slot, lo);
    InsertFrom(cmp, cap, h - 1, kid, e, lo);
  }

  /** What climbing to level `i` of the path may rely on; `t` is the node there, `kid` the one below. */
  lemma {:induction false} RiseAt<K(!new)>(cmp: Cmp<K>, cap: nat, e: Entry<K>, a: Pages<K>, b: Pages<K>, lo: nat, path: seq<Step>, spine: seq<Tree<K>>, links: seq<Link>, i: nat, top: nat, h: int, t: Tree<K>, link: Link, kidH: int, kid: Tree<K>, kidLink: Link, g: Grown<K>, n: nat)
    requires TotalOrder(cmp) && Spine(cmp, e.key, path, spine, links) && i < |path| && h == top - i && kidH == h - 1
    requires t == spine[i] && link == links[i] && kid == spine[i + 1] && kidLink == links[i + 1]
    requires Standing(cmp, cap, top, spine[0], a, links[0], lo)
    requires Rising(cmp, cap, kidH, e, a, b, lo, kid, kidLink, g, n)
    ensures h >= 0 && cap >= 1 && Sound(cap, h, t) && t.Node? && t.id == path[i].page
    ensures ChildGrown(a, b, t, path[i].slot, g, link, lo, n) && |t.kids| == |t.keys| + 1 && |t.keys| <= cap
    ensures InsertTree(cmp, cap, h, t, e, lo) == Absorb(cap, t, path[i].slot, g, n)
  {
    hide Sound, Sorted, Entries, Distinct, Below, Stored, GrownStored, Untouched, GrownFrom, TotalOrder, ChildGrown, Absorb;
    SpineStanding(cmp, cap, top, e.key, path, spine, links, a, lo, i);
    assert Down(cmp, e.key, path[i], spine[i], links[i], spine[i + 1], links[i + 1]);
    Rise(cmp, cap, h, e, a, b, lo, path[i], t, link, kid, kidLink, g, n);
  }

  lemma {:induction false} RisingLeaf<K>(cmp: Cmp<K>, cap: nat, h: int, e: Entry<K>, a: Pages<K>, b: Pages<K>, lo: nat, t: Tree<K>, link: Link, g: Grown<K>, n: nat)
    requires h >= 0 && cap >= 1 && t.Leaf? && Sound(cap, h, t) && (g, n) == InsertLeaf(cmp, cap, t, e, lo)
    requires GrownStored(b, g, link) && Untouched(a, b, t, lo)
    ensures Rising(cmp, cap, h, e, a, b, lo, t, link, g, n)
  {
  }

  lemma {:induction false} ParentPage<K>(a: Pages<K>, b: Pages<K>, t: Tree<K>, s: nat, g: Grown<K>, link: Link, lo: nat, n: nat)
    requires ChildGrown(a, b, t, s, g, link, lo, n)
    ensures t.id in b && b[t.id] == NodePage(t.keys, KidIds(t.kids))
  {
    GrownApart(t, s, g, lo, n);
    KidsFacts(t, s);
  }

  /** Once a level takes the entry without splitting, the levels above it need no change of their pages. */
  lemma {:induction false} Settle<K(!new)>(cmp: Cmp<K>, cap: nat, h0: nat, e: Entry<K>, a: Pages<K>, b: Pages<K>, lo: nat, path: seq<Step>, spine: seq<Tree<K>>, links: seq<Link>, d: nat, h: int, t: Tree<K>, link: Link, g: Grown<K>, n: nat)
    requires TotalOrder(cmp) && Spine(cmp, e.key, path, spine, links) && d <= |path|
    requires Standing(cmp, cap, h0, spine[0], a, links[0], lo)
    requires h == h0 - d && t == spine[d] && link == links[d]
    requires Rising(cmp, cap, h, e, a, b, lo, t, link, g, n) && g.One?
    ensures cap >= 1 && InsertTree(cmp, cap, h0, spine[0], e, lo).0.One? && InsertTree(cmp, cap, h0, spine[0], e, lo).1 == n
    ensures Stored(b, InsertTree(cmp, cap, h0, spine[0], e, lo).0.t, links[0])
    decreases d
  {
    if d > 0 {
      hide TotalOrder, Standing, Rising, Down;
      var i := d - 1;
      RiseQuiet(cmp, cap, e, a, b, lo, path, spine, links, i, h0, h + 1, spine[i], links[i], h, t, link, g, n);
      var g' := Quiet(spine[i], path[i].slot, g.t);
      Settle(cmp, cap, h0, e, a, b, lo, path, spine, links, i, h + 1, spine[i], links[i], g', n);
    } else {
      hide TotalOrder, Spine, Standing, Sound, Untouched, InsertTree;
    }
  }

  ghost function Quiet<K>(t: Tree<K>, s: nat, k: Tree<K>): Grown<K>
    requires t.Node? && s < |t.kids|
  {
    One(Node(t.id, t.keys, t.kids[s := k]))
  }

  lemma {:induction false} RiseQuiet<K(!new)>(cmp: Cmp<K>, cap: nat, e: Entry<K>, a: Pages<K>, b: Pages<K>, lo: nat, path: seq<Step>, spine: seq<Tree<K>>, links: seq<Link>, i: nat, top: nat, h: int, t: Tree<K>, link: Link, kidH: int, kid: Tree<K>, kidLink: Link, g: Grown<K>, n: nat)
    requires TotalOrder(cmp) && Spine(cmp, e.key, path, spine, links) && i < |path| && h == top - i && kidH == h - 1
    requires t == spine[i] && link == links[i] && kid == spine[i + 1] && kidLink == links[i + 1]
    requires Standing(cmp, cap, top, spine[0], a, links[0], lo)
    requires Rising(cmp, cap, kidH, e, a, b, lo, kid, kidLink, g, n) && g.One?
    ensures t.Node? && path[i].slot < |t.kids|
    ensures Rising(cmp, cap, h, e, a, b, lo, t, link, Quiet(t, path[i].slot, g.t), n)
  {
    RiseAt(cmp, cap, e, a, b, lo, path, spine, links, i, top, h, t, link, kidH, kid, kidLink, g, n);
    hide Sound, Sorted, Entries, Distinct, Below, Stored, GrownFrom, TotalOrder, Spine, Standing, Untouched, InsertTree;
    ClimbQuiet(a, b, t, path[i].slot, g.t, link, lo, n);
  }

  /** Whether an entry with an equal key is present. */
  ghost predicate Present<K>(cmp: Cmp<K>, es: seq<Entry<K>>, k: K) {
    exists i :: 0 <= i < |es| && cmp(es[i].key, k) == 0
  }

  lemma {:induction false} LastLe<K(!new)>(cmp: Cmp<K>, es: seq<Entry<K>>, k: K, p: nat, i: nat)
    requires TotalOrder(cmp) && Sorted(cmp, es) && i < p <= |es| && cmp(es[i].key, k) == 0 && cmp(es[p - 1].key, k) <= 0
    ensures cmp(es[p - 1].key, k) == 0
  {
    var x, y := es[i].key, es[p - 1].key;
    assert i < p - 1 ==> cmp(x, y) <= 0;
    assert cmp(k, x) <= 0 ==> cmp(k, y) <= 0;
    assert cmp(x, k) == 0 && (cmp(x, k) > 0 <==> cmp(k, x) < 0);
  }

  /** The entry before the insertion point is the greatest one not above the key, so it alone tells presence. */
  lemma {:induction false} PresentAt<K(!new)>(cmp: Cmp<K>, es: seq<Entry<K>>, k: K, p: nat)
    requires TotalOrder(cmp) && Sorted(cmp, es)
    requires p <= |es| && AllLe(cmp, es[..p], k) && AllGt(cmp, es[p..], k)
    ensures Present(cmp, es, k) <==> p > 0 && cmp(es[p - 1].key, k) == 0
  {
    if i :| 0 <= i < |es| && cmp(es[i].key, k) == 0 {
      if i < p {
        assert es[..p][p - 1] == es[p - 1];
        LastLe(cmp, es, k, p, i);
      } else {
        AtSuffix(es, p, i);
      }
    }
  }

  lemma AtSuffix<T>(xs: seq<T>, p: nat, i: nat)
    requires p <= i < |xs|
    ensures xs[p..][i - p] == xs[i]
  {
  }

  /** A key present anywhere in the tree is present in the leaf that a search for it reaches. */
  lemma {:induction false} PresentBelow<K(!new)>(cmp: Cmp<K>, cap: nat, h: nat, t: Tree<K>, k: K)
    requires TotalOrder(cmp) && t.Node? && Sound(cap, h, t) && Sorted(cmp, Entries(t))
    ensures var s := Slot(cmp, t.keys, k); s < |t.kids| && (Present(cmp, Entries(t), k) <==> Present(cmp, Entries(t.kids[s]), k))
  {
    var s := Slot(cmp, t.keys, k);
    AroundSlot(cmp, cap, h, t, k);
    EntriesAround(t.kids, s);
    PresentSplit(cmp, EntriesAll(t.kids[..s]), Entries(t.kids[s]), EntriesAll(t.kids[s + 1..]), k);
    ChildParts(cmp, t.kids, s);
  }

  lemma {:induction false} PresentSplit<K(!new)>(cmp: Cmp<K>, a: seq<Entry<K>>, b: seq<Entry<K>>, c: seq<Entry<K>>, k: K)
    requires TotalOrder(cmp) && Sorted(cmp, a + b + c) && AllGt(cmp, c, k)
    requires b != [] && (a != [] ==> cmp(b[0].key, k) <= 0)
    ensures Present(cmp, a + b + c, k) <==> Present(cmp, b, k)
  {
    var s := a + b + c;
    if i :| 0 <= i < |b| && cmp(b[i].key, k) == 0 {
      assert s[|a| + i] == b[i];
    }
    if i :| 0 <= i < |s| && cmp(s[i].key, k) == 0 {
      if i < |a| {
        var x, y := s[i].key, b[0].key;
        assert s[|a|] == b[0];
        assert cmp(x, y) <= 0 && cmp(k, x) <= 0 && cmp(y, k) <= 0;
        assert cmp(k, y) <= 0;
      } else if i < |a| + |b| {
        assert s[i] == b[i - |a|];
      }
    }
  }

  lemma {:induction false} PresentOnPath<K(!new)>(cmp: Cmp<K>, cap: nat, h: nat, k: K, path: seq<Step>, spine: seq<Tree<K>>, links: seq<Link>, pages: Pages<K>, next: nat, i: nat)
    requires TotalOrder(cmp) && Spine(cmp, k, path, spine, links) && i <= |path|
    requires Standing(cmp, cap, h, spine[0], pages, links[0], next)
    ensures Present(cmp, Entries(spine[0]), k) <==> Present(cmp, Entries(spine[i]), k)
  {
    if i > 0 {
      PresentOnPath(cmp, cap, h, k, path, spine, links, pages, next, i - 1);
      SpineStanding(cmp, cap, h, k, path, spine, links, pages, next, i - 1);
      assert Down(cmp, k, path[i - 1], spine[i - 1], links[i - 1], spine[i - 1 + 1], links[i - 1 + 1]);
      PresentBelow(cmp, cap, h - (i - 1), spine[i - 1], k);
    }
  }

  lemma {:induction false} GrownBelow<K>(t: Tree<K>, g: Grown<K>, lo: nat, n: nat)
    requires Below(t, lo) && 0 < lo <= n && GrownFrom(t, g, lo, n)
    ensures GrownWithin(g, n)
  {
    assert forall x :: x in GrownIds(g) ==> 0 < x < n;
    match g
    case One(u) => assert GrownIds(g) == Ids(u);
    case Two(l, _, r) => assert Ids(l) <= GrownIds(g) && Ids(r) <= GrownIds(g);
  }

  ghost predicate GrownWithin<K>(g: Grown<K>, n: nat) {
    match g
    case One(t) => Below(t, n)
    case Two(l, _, r) => Below(l, n) && Below(r, n)
  }

  lemma {:induction false} WholeParts<K(!new)>(cmp: Cmp<K>, cap: nat, h: nat, t: Tree<K>, e: Entry<K>, a: Pages<K>, lo: nat)
    requires TotalOrder(cmp) && cap >= 1 && lo >= 1 && Standing(cmp, cap, h, t, a, End, lo)
    ensures var r := InsertTree(cmp, cap, h, t, e, lo);
            && GrownSound(cap, h, r.0) && GrownEntries(r.0) == InsertAfter(cmp, Entries(t), e)
            && Sorted(cmp, GrownEntries(r.0)) && GrownDistinct(r.0) && Head(r.0).id == t.id
            && GrownWithin(r.0, r.1)
  {
    hide InsertTree, TotalOrder, Stored, Sound, Sorted, Entries, InsertAfter, Distinct;
    InsertOk(cmp, cap, h, t, e, lo);
    InsertAfterSorted(cmp, Entries(t), e);
    InsertFrom(cmp, cap, h, t, e, lo);
    var r := InsertTree(cmp, cap, h, t, e, lo);
    GrownBelow(t, r.0, lo, r.1);
  }

  /** The whole tree after an insertion that did not split the root. */
  lemma {:induction false} WholeOne<K(!new)>(cmp: Cmp<K>, cap: nat, h: nat, t: Tree<K>, e: Entry<K>, a: Pages<K>, b: Pages<K>, lo: nat)
    requires TotalOrder(cmp) && cap >= 1 && lo >= 1 && Standing(cmp, cap, h, t, a, End, lo)
    requires InsertTree(cmp, cap, h, t, e, lo).0.One? && GrownStored(b, InsertTree(cmp, cap, h, t, e, lo).0, End)
    ensures var r := InsertTree(cmp, cap, h, t, e, lo);
            && Standing(cmp, cap, h, r.0.t, b, End, r.1) && r.0.t.id == t.id
            && Entries(r.0.t) == InsertAfter(cmp, Entries(t), e)
  {
    hide InsertTree, TotalOrder, Stored, Sound, Sorted, Entries, InsertAfter, Distinct;
    WholeParts(cmp, cap, h, t, e, a, lo);
  }

  /** The root has split: a new root over its two halves. */
  lemma {:induction false} WholeTwo<K(!new)>(cmp: Cmp<K>, cap: nat, h: nat, g: Grown<K>, b: Pages<K>, n: nat, c: Pages<K>)
    requires cap >= 1 && n >= 1 && g.Two? && GrownSound(cap, h, g) && Sorted(cmp, GrownEntries(g)) && GrownDistinct(g)
    requires GrownWithin(g, n)
    requires GrownStored(b, g, End) && c == b[n := NodePage([g.sep], [g.left.id, g.right.id])]
    ensures var t := Node(n, [g.sep], [g.left, g.right]);
            Standing(cmp, cap, h + 1, t, c, End, n + 1) && Entries(t) == GrownEntries(g)
  {
    hide InsertTree, TotalOrder;
    var kids := [g.left, g.right];
    var t := Node(n, [g.sep], kids);
    assert kids[0] == g.left && kids[1] == g.right;
    assert kids[1..] == [g.right] && [g.right][1..] == [];
    assert EntriesAll(kids[1..]) == Entries(g.right) + EntriesAll([]);
    assert EntriesAll(kids) == Entries(g.left) + Entries(g.right);
    StoredFrame(b, c, g.left, To(FirstLeaf(g.right)));
    StoredFrame(b, c, g.right, End);
    assert KidIds(kids) == [g.left.id, g.right.id];
  }

  class BTreeIndex<K(!new)> {
    const cmp: Cmp<K>
    const cap: nat            // entries per leaf and separators per node
    const unique: bool
    const nullFree: K -> bool // whether no column of the key is NULL
    var pages: Pages<K>
    var nextPage: nat
    var root: nat             // page 0 holds the file header, so 0 is the empty tree
    ghost var tree: Tree<K>
    ghost var height: nat

    ghost predicate Valid()
      reads this
    {
      && TotalOrder(cmp) && cap >= 1 && nextPage >= 1
      && (root != 0 ==> tree.id == root && Standing(cmp, cap, height, tree, pages, End, nextPage))
    }

    /** The entries of the index, in key order. */
    ghost function Contents(): (es: seq<Entry<K>>)
      reads this
    {
      if root == 0 then [] else Entries(tree)
    }

    constructor (compare: Cmp<K>, capacity: nat, isUnique: bool, isNullFree: K -> bool)
      requires TotalOrder(compare) && capacity >= 1
      ensures Valid() && Contents() == []
      ensures cmp == compare && cap == capacity && unique == isUnique && nullFree == isNullFree
    {
      cmp, cap, unique, nullFree := compare, capacity, isUnique, isNullFree;
      pages, nextPage, root := map[], 1, 0;
      tree, height := Leaf(0, []), 0;
    }

    method ReservePage() returns (id: nat)
      modifies this`nextPage
      ensures id == old(nextPage) && nextPage == id + 1
    {
      id := nextPage;
      nextPage := nextPage + 1;
    }

    /** One step of the descent, from the page of an inner node. */
    method Descend(page: nat, k: K, ghost t: Tree<K>, ghost link: Link, ghost h: int) returns (slot: nat, child: nat)
      requires TotalOrder(cmp) && Standing(cmp, cap, h, t, pages, link, nextPage) && t.Node? && t.id == page
      ensures slot < |t.kids| && child == t.kids[slot].id
      ensures Down(cmp, k, Step(page, slot), t, link, t.kids[slot], NextLink(t.kids, slot, link))
      ensures Standing(cmp, cap, h - 1, t.kids[slot], pages, NextLink(t.kids, slot, link), nextPage)
    {
      NodeKeysSorted(cmp, cap, h, t);
      slot := FindSlot(cmp, pages[page].keys, k);
      StandingDown(cmp, cap, h, t, pages, link, nextPage, k);
      child := pages[page].children[slot];
    }

    /** Descends to the leaf for `k`, recording the page and slot taken at every level. */
    method FindLeaf(k: K) returns (leaf: nat, path: seq<Step>, ghost spine: seq<Tree<K>>, ghost links: seq<Link>)
      requires Valid() && root != 0
      ensures Spine(cmp, k, path, spine, links) && spine[0] == tree && links[0] == End
      ensures Standing(cmp, cap, height - |path|, spine[|path|], pages, links[|path|], nextPage)
      ensures spine[|path|].Leaf? && spine[|path|].id == leaf
    {
      hide Standing, TotalOrder, Down;
      leaf, path, spine, links := root, [], [tree], [End];
      ghost var t, link, h: int := tree, End, height;
      PageKind(cmp, cap, h, t, pages, link, nextPage);
      while pages[leaf].NodePage?
        invariant |spine| == |links| == |path| + 1 && t == spine[|path|] && link == links[|path|] && h == height - |path|
        invariant Spine(cmp, k, path, spine, links) && spine[0] == tree && links[0] == End
        invariant Standing(cmp, cap, h, t, pages, link, nextPage)
        invariant t.id == leaf && leaf in pages && (pages[leaf].NodePage? <==> t.Node?)
        decreases t
      {
        var slot, child := Descend(leaf, k, t, link, h);
        h := h - 1;
        PageKind(cmp, cap, h, t.kids[slot], pages, NextLink(t.kids, slot, link), nextPage);
        ExtendSpine(cmp, k, path, spine, links, Step(leaf, slot), t.kids[slot], NextLink(t.kids, slot, link));
        path := path + [Step(leaf, slot)];
        leaf := child;
        t, link := t.kids[slot], NextLink(t.kids, slot, link);
        spine, links := spine + [t], links + [link];
      }
    }

    /** Puts the entry into the leaf at its slot; the leaf has room. */
    method InsertLeafEntry(leaf: nat, slot: nat, e: Entry<K>, ghost t: Tree<K>, ghost link: Link)
      requires cap >= 1 && t.Leaf? && t.id == leaf && Stored(pages, t, link) && |t.entries| < cap
      requires slot == Slot(cmp, KeysOf(t.entries), e.key)
      modifies this`pages
      ensures var r := InsertLeaf(cmp, cap, t, e, nextPage);
              r.0.One? && r.1 == nextPage && GrownStored(pages, r.0, link)
      ensures Untouched(old(pages), pages, t, nextPage)
    {
      var p := pages[leaf];
      pages := pages[leaf := LeafPage(p.entries[..slot] + [e] + p.entries[slot..], p.sibling)];
    }

    /** Splits a full leaf around the new entry: the lower half stays, the upper half goes to a new page. */
    method SplitLeafPage(leaf: nat, slot: nat, e: Entry<K>, ghost t: Tree<K>, ghost link: Link) returns (sep: K, right: nat)
      requires cap >= 1 && t.Leaf? && t.id == leaf && Stored(pages, t, link) && |t.entries| == cap && leaf < nextPage
      requires slot == Slot(cmp, KeysOf(t.entries), e.key)
      modifies this`pages, this`nextPage
      ensures var r := InsertLeaf(cmp, cap, t, e, old(nextPage));
              && r.0.Two? && r.1 == nextPage && sep == r.0.sep && right == r.0.right.id && GrownStored(pages, r.0, link)
      ensures Untouched(old(pages), pages, t, old(nextPage))
    {
      var p := pages[leaf];
      var total := cap + 1;
      var tmp := p.entries[..slot] + [e] + p.entries[slot..];
      var mid := total / 2;
      right := ReservePage();
      pages := pages[leaf := LeafPage(tmp[..mid], To(right))];
      pages := pages[right := LeafPage(tmp[mid..], p.sibling)];
      sep := tmp[mid].key;
    }

    /** The parent takes a separator and, right of child `slot`, a new child; it has room. */
    method InsertNodeEntry(parent: nat, slot: nat, sep: K, right: nat, ghost a: Pages<K>, ghost t: Tree<K>, ghost link: Link, ghost g: Grown<K>, ghost lo: nat)
      requires ChildGrown(a, pages, t, slot, g, link, lo, nextPage) && |t.kids| == |t.keys| + 1
      requires t.id == parent && g.Two? && g.sep == sep && g.right.id == right
      requires parent in pages && pages[parent] == NodePage(t.keys, KidIds(t.kids))
      modifies this`pages
      ensures Stored(pages, Node(t.id, Splice(t.keys, slot, [sep], 0), Splice(t.kids, slot, [g.left, g.right], 1)), link)
      ensures Untouched(a, pages, t, lo)
    {
      ClimbRoom(a, pages, t, slot, g, link, lo, nextPage);
      var p := pages[parent];
      pages := pages[parent := NodePage(p.keys[..slot] + [sep] + p.keys[slot..],
                                        p.children[..slot + 1] + [right] + p.children[slot + 1..])];
    }

    /** A full parent splits: the middle separator moves up, what is right of it goes to a new page. */
    method SplitNodePage(parent: nat, slot: nat, sep: K, right: nat, ghost a: Pages<K>, ghost t: Tree<K>, ghost link: Link, ghost g: Grown<K>, ghost lo: nat)
        returns (pushed: K, newRight: nat)
      requires cap >= 1 && ChildGrown(a, pages, t, slot, g, link, lo, nextPage) && |t.kids| == |t.keys| + 1 && |t.keys| == cap
      requires t.id == parent && g.Two? && g.sep == sep && g.right.id == right
      requires parent in pages && pages[parent] == NodePage(t.keys, KidIds(t.kids))
      modifies this`pages, this`nextPage
      ensures nextPage == old(nextPage) + 1
      ensures var s := SplitNode(t.id, Splice(t.keys, slot, [sep], 0), Splice(t.kids, slot, [g.left, g.right], 1), old(nextPage));
              pushed == s.sep && newRight == s.right.id && GrownStored(pages, s, link)
      ensures Untouched(a, pages, t, lo)
    {
      ghost var b, n := pages, nextPage;
      var p := pages[parent];
      var keys := p.keys[..slot] + [sep] + p.keys[slot..];
      var children := p.children[..slot + 1] + [right] + p.children[slot + 1..];
      var mid := (cap + 1) / 2;
      newRight := ReservePage();
      pages := pages[parent := NodePage(keys[..mid], children[..mid + 1])];
      pages := pages[newRight := NodePage(keys[mid + 1..], children[mid + 1..])];
      pushed := keys[mid];
      ClimbFull(a, b, t, slot, g, link, lo, n, pages);
    }

    /** One level of the way back up: a node takes the separator and the right half of a split child. */
    method Climb(step: Step, sep: K, right: nat, ghost a: Pages<K>, ghost t: Tree<K>, ghost link: Link, ghost g: Grown<K>, ghost lo: nat)
        returns (split: bool, newSep: K, newRight: nat)
      requires cap >= 1 && ChildGrown(a, pages, t, step.slot, g, link, lo, nextPage) && |t.kids| == |t.keys| + 1 && |t.keys| <= cap
      requires t.id == step.page && g.Two? && g.sep == sep && g.right.id == right
      modifies this`pages, this`nextPage
      ensures var r := Absorb(cap, t, step.slot, g, old(nextPage));
              && r.1 == nextPage && split == r.0.Two? && (split ==> newSep == r.0.sep && newRight == r.0.right.id)
              && GrownStored(pages, r.0, link)
      ensures Untouched(a, pages, t, lo)
    {
      ParentPage(a, pages, t, step.slot, g, link, lo, nextPage);
      if |pages[step.page].keys| < cap {
        InsertNodeEntry(step.page, step.slot, sep, right, a, t, link, g, lo);
        split, newSep, newRight := false, sep, right;
      } else {
        newSep, newRight := SplitNodePage(step.page, step.slot, sep, right, a, t, link, g, lo);
        split := true;
      }
    }

    method ClimbAt(path: seq<Step>, i: nat, e: Entry<K>, sep: K, right: nat, ghost a: Pages<K>, ghost lo: nat, ghost spine: seq<Tree<K>>, ghost links: seq<Link>, ghost top: nat, ghost h: int, ghost t: Tree<K>, ghost link: Link, ghost kidH: int, ghost kid: Tree<K>, ghost kidLink: Link, ghost g: Grown<K>)
        returns (split: bool, newSep: K, newRight: nat, ghost g': Grown<K>)
      requires TotalOrder(cmp) && Spine(cmp, e.key, path, spine, links) && i < |path| && h == top - i && kidH == h - 1
      requires t == spine[i] && link == links[i] && kid == spine[i + 1] && kidLink == links[i + 1]
      requires Standing(cmp, cap, top, spine[0], a, links[0], lo)
      requires Rising(cmp, cap, kidH, e, a, pages, lo, kid, kidLink, g, nextPage)
      requires g.Two? && g.sep == sep && g.right.id == right
      modifies this`pages, this`nextPage
      ensures Rising(cmp, cap, h, e, a, pages, lo, t, link, g', nextPage)
      ensures split == g'.Two? && (split ==> newSep == g'.sep && newRight == g'.right.id)
    {
      RiseAt(cmp, cap, e, a, pages, lo, path, spine, links, i, top, h, t, link, kidH, kid, kidLink, g, nextPage);
      g' := Absorb(cap, t, path[i].slot, g, nextPage).0;
      split, newSep, newRight := Climb(path[i], sep, right, a, t, link, g, lo);
    }

    /** Carries a split up the recorded path until a level has room; the root itself may be left split. */
    method ClimbPath(path: seq<Step>, e: Entry<K>, sep: K, right: nat, ghost a: Pages<K>, ghost lo: nat, ghost spine: seq<Tree<K>>, ghost links: seq<Link>, ghost h0: int, ghost g0: Grown<K>)
        returns (split: bool, newSep: K, newRight: nat)
      requires TotalOrder(cmp) && cap >= 1 && Spine(cmp, e.key, path, spine, links) && h0 == height - |path|
      requires Standing(cmp, cap, height, spine[0], a, links[0], lo)
      requires Rising(cmp, cap, h0, e, a, pages, lo, spine[|path|], links[|path|], g0, nextPage)
      requires g0.Two? && g0.sep == sep && g0.right.id == right
      modifies this`pages, this`nextPage
      ensures var r := InsertTree(cmp, cap, height, spine[0], e, lo);
              && r.1 == nextPage && split == r.0.Two? && (split ==> newSep == r.0.sep && newRight == r.0.right.id)
              && GrownStored(pages, r.0, links[0])
    {
      hide Sound, Sorted, Entries, Distinct, Below, Stored, Untouched, InsertTree, TotalOrder, Standing;
      var d := |path|;
      ghost var h, t, link, g := h0, spine[d], links[d], g0;
      split, newSep, newRight := true, sep, right;
      while d > 0
        invariant 0 <= d <= |path| && split && h == height - d && t == spine[d] && link == links[d]
        invariant Rising(cmp, cap, h, e, a, pages, lo, t, link, g, nextPage)
        invariant g.Two? && g.sep == newSep && g.right.id == newRight
      {
        d := d - 1;
        split, newSep, newRight, g := ClimbAt(path, d, e, newSep, newRight, a, lo, spine, links, height, h + 1, spine[d], links[d], h, t, link, g);
        h, t, link := h + 1, spine[d], links[d];
        if !split {
          Settle(cmp, cap, height, e, a, pages, lo, path, spine, links, d, h, t, link, g, nextPage);
          return;
        }
      }
    }

    /** The first entry makes a leaf that is the whole tree. */
    method InsertFirst(e: Entry<K>)
      requires Valid() && root == 0
      modifies this
      ensures Valid() && Contents() == [e]
    {
      var leaf := ReservePage();
      pages := pages[leaf := LeafPage([e], End)];
      root := leaf;
      tree, height := Leaf(leaf, [e]), 0;
    }

    /** Places the entry, which is known to be admissible, by the path recorded for it. */
    method InsertAlong(e: Entry<K>, leaf: nat, slot: nat, path: seq<Step>, ghost spine: seq<Tree<K>>, ghost links: seq<Link>)
        returns (split: bool, sep: K, right: nat)
      requires Valid() && root != 0 && Spine(cmp, e.key, path, spine, links) && spine[0] == tree && links[0] == End
      requires spine[|path|].Leaf? && spine[|path|].id == leaf && slot == Slot(cmp, KeysOf(spine[|path|].entries), e.key)
      requires Standing(cmp, cap, height - |path|, spine[|path|], pages, links[|path|], nextPage)
      modifies this`pages, this`nextPage
      ensures var r := InsertTree(cmp, cap, height, tree, e, old(nextPage));
              && r.1 == nextPage && split == r.0.Two? && (split ==> sep == r.0.sep && right == r.0.right.id)
              && GrownStored(pages, r.0, End)
    {
      hide InsertTree, Sorted, Distinct, Untouched, TotalOrder, Rising;
      ghost var a, lo, h := pages, nextPage, height - |path|;
      ghost var t, link := spine[|path|], links[|path|];
      ghost var g := InsertLeaf(cmp, cap, t, e, lo).0;
      IdInIds(t);
      if |pages[leaf].entries| < cap {
        InsertLeafEntry(leaf, slot, e, t, link);
        RisingLeaf(cmp, cap, h, e, a, pages, lo, t, link, g, nextPage);
        Settle(cmp, cap, height, e, a, pages, lo, path, spine, links, |path|, h, t, link, g, nextPage);
        split, sep, right := false, e.key, 0;
      } else {
        sep, right := SplitLeafPage(leaf, slot, e, t, link);
        RisingLeaf(cmp, cap, h, e, a, pages, lo, t, link, g, nextPage);
        split, sep, right := ClimbPath(path, e, sep, right, a, lo, spine, links, h, g);
      }
    }

    /** The root has split, and a new root is put over its halves. */
    method GrowRoot(sep: K, right: nat, ghost g: Grown<K>)
      requires TotalOrder(cmp) && cap >= 1 && nextPage >= 1 && root != 0
      requires g.Two? && GrownSound(cap, height, g) && Sorted(cmp, GrownEntries(g)) && GrownDistinct(g)
      requires GrownWithin(g, nextPage)
      requires GrownStored(pages, g, End) && g.sep == sep && g.left.id == root && g.right.id == right
      modifies this
      ensures Valid() && Contents() == GrownEntries(g)
    {
      ghost var b := pages;
      var newRoot := ReservePage();
      pages := pages[newRoot := NodePage([sep], [root, right])];
      WholeTwo(cmp, cap, height, g, b, newRoot, pages);
      root := newRoot;
      tree, height := Node(newRoot, [sep], [g.left, g.right]), height + 1;
    }

    method Finish(e: Entry<K>, split: bool, sep: K, right: nat, ghost a: Pages<K>, ghost lo: nat)
      requires TotalOrder(cmp) && cap >= 1 && root != 0 && tree.id == root && lo >= 1
      requires Standing(cmp, cap, height, tree, a, End, lo)
      requires var r := InsertTree(cmp, cap, height, tree, e, lo);
               && r.1 == nextPage && split == r.0.Two? && (split ==> sep == r.0.sep && right == r.0.right.id)
               && GrownStored(pages, r.0, End)
      modifies this
      ensures Valid() && Contents() == InsertAfter(cmp, old(Entries(tree)), e)
    {
      hide InsertTree, TotalOrder, Stored, Sound, Sorted, Entries, InsertAfter, Distinct;
      ghost var g := InsertTree(cmp, cap, height, tree, e, lo).0;
      if split {
        WholeParts(cmp, cap, height, tree, e, a, lo);
        GrowRoot(sep, right, g);
      } else {
        WholeOne(cmp, cap, height, tree, e, a, pages, lo);
        tree := g.t;
      }
    }

    /** Inserts an entry. A unique index refuses a key without NULLs exactly when an equal key is present; otherwise
        the entry is placed after all entries that are not greater. */
    method Insert(k: K, row: nat) returns (ok: bool)
      requires Valid()
      modifies this
      ensures Valid()
      ensures ok <==> !(unique && nullFree(k) && Present(cmp, old(Contents()), k))
      ensures Contents() == if ok then InsertAfter(cmp, old(Contents()), Entry(k, row)) else old(Contents())
    {
      var e := Entry(k, row);
      if root == 0 {
        InsertFirst(e);
        return true;
      }
      ghost var a, lo, was := pages, nextPage, tree;
      var leaf, path, spine, links := FindLeaf(k);
      var entries := pages[leaf].entries;
      assert entries == spine[|path|].entries;
      var slot := FindSlot(cmp, KeysOf(entries), k);
      SlotSplits(cmp, entries, k);
      PresentAt(cmp, entries, k, slot);
      PresentOnPath(cmp, cap, height, k, path, spine, links, pages, nextPage, |path|);
      if unique && slot > 0 && nullFree(k) && cmp(entries[slot - 1].key, k) == 0 {
        return false;
      }
      ok := true;
      var split, sep, right := InsertAlong(e, leaf, slot, path, spine, links);
      Finish(e, split, sep, right, a, lo);
    }
  }
}
