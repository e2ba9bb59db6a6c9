/** How a tree lies in pages: one page per node, children by page id, leaves chained from left to right. */
module BTreePages {
  import opened BTreeSpec
  import opened BTreeInsert

  datatype Link = End | To(page: nat)

  datatype Page<K> =
    | LeafPage(entries: seq<Entry<K>>, sibling: Link)
    | NodePage(keys: seq<K>, children: seq<nat>)

  type Pages<K> = map<nat, Page<K>>

  ghost function Ids<K>(t: Tree<K>): set<nat>
    decreases t
  {
    match t
    case Leaf(id, _) => {id}
    case Node(id, _, kids) => {id} + set i, x | 0 <= i < |kids| && x in Ids(kids[i]) :: x
  }

  ghost predicate Distinct<K>(t: Tree<K>)
    decreases t
  {
    match t
    case Leaf(_, _) => true
    case Node(id, _, kids) =>
      && (forall i :: 0 <= i < |kids| ==> id !in Ids(kids[i]) && Distinct(kids[i]))
      && (forall i, j :: 0 <= i < j < |kids| ==> Ids(kids[i]) !! Ids(kids[j]))
  }

  /** The page of the leftmost leaf. */
  ghost function FirstLeaf<K>(t: Tree<K>): nat
    decreases t
  {
    match t
    case Leaf(id, _) => id
    case Node(id, _, kids) => if kids == [] then id else FirstLeaf(kids[0])
  }

  ghost function NextLink<K>(ts: seq<Tree<K>>, i: nat, next: Link): Link {
    if i + 1 < |ts| then To(FirstLeaf(ts[i + 1])) else next
  }

  ghost function KidIds<K>(ts: seq<Tree<K>>): (ids: seq<nat>)
    ensures |ids| == |ts| && forall i :: 0 <= i < |ts| ==> ids[i] == ts[i].id
  {
    seq(|ts|, i requires 0 <= i < |ts| => ts[i].id)
  }

  /** The pages of `t` hold `t`, and its last leaf is chained to `next`. */
  ghost predicate Stored<K>(pages: Pages<K>, t: Tree<K>, next: Link)
    decreases t
  {
    && t.id in pages
    && match t
       case Leaf(id, es) => pages[id] == LeafPage(es, next)
       case Node(id, keys, kids) =>
         && pages[id] == NodePage(keys, KidIds(kids))
         && forall i :: 0 <= i < |kids| ==> Stored(pages, kids[i], NextLink(kids, i, next))
  }

  ghost predicate StoredAll<K>(pages: Pages<K>, ts: seq<Tree<K>>, next: Link) {
    forall i :: 0 <= i < |ts| ==> Stored(pages, ts[i], NextLink(ts, i, next))
  }

  ghost predicate SamePages<K>(a: Pages<K>, b: Pages<K>, ids: set<nat>) {
    forall x :: x in ids && x in a ==> x in b && b[x] == a[x]
  }

  /** A tree stays stored while its own pages stay. */
  lemma {:induction false} StoredFrame<K>(a: Pages<K>, b: Pages<K>, t: Tree<K>, next: Link)
    requires Stored(a, t, next) && SamePages(a, b, Ids(t))
    ensures Stored(b, t, next)
    decreases t
  {
    match t
    case Leaf(_, _) =>
    case Node(_, _, kids) =>
      forall i | 0 <= i < |kids|
        ensures Stored(b, kids[i], NextLink(kids, i, next))
      {
        StoredFrame(a, b, kids[i], NextLink(kids, i, next));
      }
  }

  lemma {:induction false} IdInIds<K>(t: Tree<K>)
    ensures t.id in Ids(t) && FirstLeaf(t) in Ids(t)
    decreases t
  {
    match t
    case Leaf(_, _) =>
    case Node(_, _, kids) =>
      if kids != [] {
        IdInIds(kids[0]);
      }
  }

  // ---------------------------------------------------------------- pages of a grown tree

  ghost function GrownIds<K>(g: Grown<K>): set<nat> {
    match g
    case One(t) => Ids(t)
    case Two(l, _, r) => Ids(l) + Ids(r)
  }

  ghost predicate GrownDistinct<K>(g: Grown<K>) {
    match g
    case One(t) => Distinct(t)
    case Two(l, _, r) => Distinct(l) && Distinct(r) && Ids(l) !! Ids(r)
  }

  ghost function Head<K>(g: Grown<K>): Tree<K> {
    if g.One? then g.t else g.left
  }

  /** The grown tree keeps the page and the first leaf of the old one and adds only pages of `[lo, hi)`. */
  ghost predicate GrownFrom<K>(t: Tree<K>, g: Grown<K>, lo: nat, hi: nat) {
    && GrownDistinct(g)
    && (forall x :: x in GrownIds(g) ==> x in Ids(t) || lo <= x < hi)
    && Head(g).id == t.id && FirstLeaf(Head(g)) == FirstLeaf(t)
  }

  ghost predicate Below<K>(t: Tree<K>, n: nat) {
    forall x :: x in Ids(t) ==> 0 < x < n
  }

  lemma {:induction false} KidsFacts<K>(t: Tree<K>, i: nat)
    requires t.Node? && Distinct(t) && i < |t.kids|
    ensures Distinct(t.kids[i]) && Ids(t.kids[i]) <= Ids(t) && t.id !in Ids(t.kids[i])
  {
  }

  lemma {:induction false} KidBelow<K>(t: Tree<K>, i: nat, n: nat)
    requires t.Node? && Distinct(t) && i < |t.kids| && Below(t, n)
    ensures Distinct(t.kids[i]) && Below(t.kids[i], n)
  {
    KidsFacts(t, i);
  }

  /** Children with pairwise disjoint pages, none of them the page of the node itself. */
  ghost predicate Apart<K>(id: nat, kids: seq<Tree<K>>) {
    && (forall i :: 0 <= i < |kids| ==> id !in Ids(kids[i]) && Distinct(kids[i]))
    && (forall i, j :: 0 <= i < j < |kids| ==> Ids(kids[i]) !! Ids(kids[j]))
  }

  lemma {:induction false} ReplaceApart<K>(t: Tree<K>, s: nat, k: Tree<K>, lo: nat, hi: nat)
    requires t.Node? && Distinct(t) && s < |t.kids| && Below(t, lo) && GrownFrom(t.kids[s], One(k), lo, hi)
    ensures Apart(t.id, t.kids[s := k])
  {
    IdInIds(t);
    var kids := t.kids[s := k];
    forall i, j | 0 <= i < j < |kids|
      ensures Ids(kids[i]) !! Ids(kids[j])
    {
      assert Ids(t.kids[i]) !! Ids(t.kids[j]) && Ids(t.kids[i]) <= Ids(t) && Ids(t.kids[j]) <= Ids(t);
    }
  }

  lemma {:induction false} WidenApart<K>(t: Tree<K>, s: nat, l: Tree<K>, sep: K, r: Tree<K>, lo: nat, hi: nat)
    requires t.Node? && Distinct(t) && s < |t.kids| && Below(t, lo) && GrownFrom(t.kids[s], Two(l, sep, r), lo, hi)
    ensures Apart(t.id, Splice(t.kids, s, [l, r], 1))
  {
    IdInIds(t);
    var kids := Splice(t.kids, s, [l, r], 1);
    var g := Two(l, sep, r);
    forall i | 0 <= i < |kids|
      ensures t.id !in Ids(kids[i]) && Distinct(kids[i])
    {
      WidenSource(t, s, l, r, i);
    }
    forall i, j | 0 <= i < j < |kids|
      ensures Ids(kids[i]) !! Ids(kids[j])
    {
      WidenSource(t, s, l, r, i);
      WidenSource(t, s, l, r, j);
      var u, v := Source(s, i), Source(s, j);
      assert u < v ==> Ids(t.kids[u]) !! Ids(t.kids[v]);
      assert Ids(t.kids[u]) <= Ids(t) && Ids(t.kids[v]) <= Ids(t);
      assert forall x :: x in Ids(kids[i]) ==> x in Ids(t.kids[u]) || lo <= x < hi;
    }
  }

  /** Which old child a child of the widened node comes from. */
  ghost function Source(s: nat, i: nat): nat {
    if i <= s then i else i - 1
  }

  lemma {:induction false} WidenSource<K>(t: Tree<K>, s: nat, l: Tree<K>, r: Tree<K>, i: nat)
    requires t.Node? && s < |t.kids| && i < |t.kids| + 1
    ensures Splice(t.kids, s, [l, r], 1)[i] == if i == s then l else if i == s + 1 then r else t.kids[Source(s, i)]
  {
  }

  ghost predicate KidsWithin<K>(t: Tree<K>, kids: seq<Tree<K>>, lo: nat, hi: nat) {
    forall i, x :: 0 <= i < |kids| && x in Ids(kids[i]) ==> x in Ids(t) || lo <= x < hi
  }

  lemma {:induction false} WidenWithin<K>(t: Tree<K>, s: nat, l: Tree<K>, sep: K, r: Tree<K>, lo: nat, hi: nat)
    requires t.Node? && s < |t.kids| && GrownFrom(t.kids[s], Two(l, sep, r), lo, hi)
    ensures KidsWithin(t, Splice(t.kids, s, [l, r], 1), lo, hi)
  {
    var kids := Splice(t.kids, s, [l, r], 1);
    forall i, x | 0 <= i < |kids| && x in Ids(kids[i])
      ensures x in Ids(t) || lo <= x < hi
    {
      WidenSource(t, s, l, r, i);
      assert Ids(t.kids[Source(s, i)]) <= Ids(t);
    }
  }

  lemma {:induction false} SplitFrom<K>(t: Tree<K>, keys: seq<K>, kids: seq<Tree<K>>, lo: nat, n: nat)
    requires t.Node? && t.kids != [] && |keys| >= 2 && |kids| == |keys| + 1 && Below(t, lo) && lo <= n
    requires Apart(t.id, kids) && KidsWithin(t, kids, lo, n) && FirstLeaf(kids[0]) == FirstLeaf(t.kids[0])
    ensures GrownFrom(t, SplitNode(t.id, keys, kids, n), lo, n + 1)
  {
    IdInIds(t);
    var g := SplitNode(t.id, keys, kids, n);
    var mid := |keys| / 2;
    LeftDistinct(t.id, kids, mid + 1, g.left);
    hide Distinct, Ids;
    forall i | 0 <= i < |kids|
      ensures n !in Ids(kids[i])
    {
      UnusedId(t, kids[i], lo, n);
    }
    assert forall i, j :: 0 <= i <= mid < j < |kids| ==> Ids(kids[i]) !! Ids(kids[j]);
    RightDistinct(n, kids, mid + 1, g.right);
  }

  lemma {:induction false} LeftDistinct<K>(id: nat, kids: seq<Tree<K>>, upto: nat, t: Tree<K>)
    requires upto <= |kids| && t.Node? && t.id == id && t.kids == kids[..upto] && Apart(id, kids)
    ensures Distinct(t)
    ensures forall x :: x in Ids(t) ==> x == id || exists j :: 0 <= j < upto && x in Ids(kids[j])
  {
    forall x | x in Ids(t) && x != id
      ensures exists j :: 0 <= j < upto && x in Ids(kids[j])
    {
      var i :| 0 <= i < |t.kids| && x in Ids(t.kids[i]);
      assert x in Ids(kids[i]);
    }
  }

  lemma {:induction false} UnusedId<K>(t: Tree<K>, k: Tree<K>, lo: nat, n: nat)
    requires Below(t, lo) && lo <= n && forall x :: x in Ids(k) ==> x in Ids(t) || lo <= x < n
    ensures n !in Ids(k)
  {
  }

  lemma {:induction false} RightDistinct<K>(id: nat, kids: seq<Tree<K>>, from: nat, t: Tree<K>)
    requires from <= |kids| && t.Node? && t.id == id && t.kids == kids[from..]
    requires forall i :: 0 <= i < |kids| ==> id !in Ids(kids[i]) && Distinct(kids[i])
    requires forall i, j :: 0 <= i < j < |kids| ==> Ids(kids[i]) !! Ids(kids[j])
    ensures Distinct(t)
    ensures forall x :: x in Ids(t) ==> x == id || exists j :: from <= j < |kids| && x in Ids(kids[j])
  {
    forall x | x in Ids(t) && x != id
      ensures exists j :: from <= j < |kids| && x in Ids(kids[j])
    {
      var i :| 0 <= i < |t.kids| && x in Ids(t.kids[i]);
      assert x in Ids(kids[from + i]);
    }
    forall i, j | 0 <= i < j < |t.kids|
      ensures Ids(t.kids[i]) !! Ids(t.kids[j])
    {
      assert Ids(kids[from + i]) !! Ids(kids[from + j]);
    }
  }

  lemma {:induction false} AbsorbFrom<K>(cap: nat, t: Tree<K>, s: nat, g: Grown<K>, lo: nat, n: nat)
    requires cap >= 1 && t.Node? && |t.kids| == |t.keys| + 1 && |t.keys| <= cap && s < |t.kids|
    requires Distinct(t) && Below(t, lo) && lo <= n && GrownFrom(t.kids[s], g, lo, n)
    ensures var r := Absorb(cap, t, s, g, n); GrownFrom(t, r.0, lo, r.1)
  {
    IdInIds(t);
    match g
    case One(k) =>
      ReplaceApart(t, s, k, lo, n);
    case Two(l, sep, r) =>
      WidenApart(t, s, l, sep, r, lo, n);
      WidenWithin(t, s, l, sep, r, lo, n);
      var kids := Splice(t.kids, s, [l, r], 1);
      WidenSource(t, s, l, r, 0);
      if |t.keys| >= cap {
        SplitFrom(t, Splice(t.keys, s, [sep], 0), kids, lo, n);
      }
  }

  lemma {:induction false} InsertLeafFrom<K>(cmp: Cmp<K>, cap: nat, t: Tree<K>, e: Entry<K>, next: nat)
    requires cap >= 1 && t.Leaf? && |t.entries| <= cap && Below(t, next)
    ensures var r := InsertLeaf(cmp, cap, t, e, next); GrownFrom(t, r.0, next, r.1)
  {
    IdInIds(t);
  }

  lemma {:induction false} InsertFrom<K>(cmp: Cmp<K>, cap: nat, h: nat, t: Tree<K>, e: Entry<K>, next: nat)
    requires cap >= 1 && Sound(cap, h, t) && Distinct(t) && Below(t, next)
    ensures var r := InsertTree(cmp, cap, h, t, e, next); GrownFrom(t, r.0, next, r.1)
    decreases t
  {
    match t
    case Leaf(_, _) => InsertLeafFrom(cmp, cap, t, e, next);
    case Node(_, keys, kids) =>
      var s := Slot(cmp, keys, e.key);
      KidBelow(t, s, next);
      InsertFrom(cmp, cap, h - 1, kids[s], e, next);
      InsertNodeFrom(cmp, cap, h, t, e, next);
  }

  lemma {:induction false} InsertNodeFrom<K>(cmp: Cmp<K>, cap: nat, h: nat, t: Tree<K>, e: Entry<K>, next: nat)
    requires cap >= 1 && t.Node? && Sound(cap, h, t) && Distinct(t) && Below(t, next)
    requires var s := Slot(cmp, t.keys, e.key);
             var r := InsertTree(cmp, cap, h - 1, t.kids[s], e, next); GrownFrom(t.kids[s], r.0, next, r.1)
    ensures var r := InsertTree(cmp, cap, h, t, e, next); GrownFrom(t, r.0, next, r.1)
  {
    var s := Slot(cmp, t.keys, e.key);
    var (g, n) := InsertTree(cmp, cap, h - 1, t.kids[s], e, next);
    AbsorbFrom(cap, t, s, g, next, n);
  }

  // ---------------------------------------------------------------- pages after an insertion

  ghost predicate GrownStored<K>(pages: Pages<K>, g: Grown<K>, next: Link) {
    match g
    case One(t) => Stored(pages, t, next)
    case Two(l, _, r) => Stored(pages, l, To(FirstLeaf(r))) && Stored(pages, r, next)
  }

  /** The siblings of child `s` are stored as before. */
  ghost predicate SiblingsStored<K>(pages: Pages<K>, t: Tree<K>, s: nat, next: Link)
    requires t.Node?
  {
    forall i :: 0 <= i < |t.kids| && i != s ==> Stored(pages, t.kids[i], NextLink(t.kids, i, next))
  }

  lemma {:induction false} SiblingsFrame<K>(a: Pages<K>, b: Pages<K>, t: Tree<K>, s: nat, next: Link)
    requires t.Node? && Stored(a, t, next) && s < |t.kids|
    requires forall i :: 0 <= i < |t.kids| && i != s ==> SamePages(a, b, Ids(t.kids[i]))
    ensures SiblingsStored(b, t, s, next)
  {
    forall i | 0 <= i < |t.kids| && i != s
      ensures Stored(b, t.kids[i], NextLink(t.kids, i, next))
    {
      StoredFrame(a, b, t.kids[i], NextLink(t.kids, i, next));
    }
  }

  lemma {:induction false} ReplaceStored<K>(pages: Pages<K>, t: Tree<K>, s: nat, k: Tree<K>, next: Link)
    requires t.Node? && s < |t.kids| && SiblingsStored(pages, t, s, next)
    requires k.id == t.kids[s].id && FirstLeaf(k) == FirstLeaf(t.kids[s]) && Stored(pages, k, NextLink(t.kids, s, next))
    requires t.id in pages && pages[t.id] == NodePage(t.keys, KidIds(t.kids))
    ensures Stored(pages, Node(t.id, t.keys, t.kids[s := k]), next)
  {
    hide Stored, NextLink, FirstLeaf;
    var kids := t.kids[s := k];
    assert KidIds(kids) == KidIds(t.kids);
    forall i | 0 <= i < |kids|
      ensures Stored(pages, kids[i], NextLink(kids, i, next))
    {
      SameNext(t.kids, s, k, i, next);
    }
    NodeStored(pages, t.id, t.keys, kids, next);
  }

  lemma {:induction false} SameNext<K>(kids: seq<Tree<K>>, s: nat, k: Tree<K>, i: nat, next: Link)
    requires s < |kids| && FirstLeaf(k) == FirstLeaf(kids[s])
    ensures NextLink(kids[s := k], i, next) == NextLink(kids, i, next)
  {
    hide FirstLeaf;
  }

  lemma {:induction false} NodeStored<K>(pages: Pages<K>, id: nat, keys: seq<K>, kids: seq<Tree<K>>, next: Link)
    requires id in pages && pages[id] == NodePage(keys, KidIds(kids)) && StoredAll(pages, kids, next)
    ensures Stored(pages, Node(id, keys, kids), next)
  {
    hide NextLink, KidIds;
  }

  lemma {:induction false} WidenStored<K>(pages: Pages<K>, t: Tree<K>, s: nat, l: Tree<K>, r: Tree<K>, next: Link)
    requires t.Node? && s < |t.kids| && SiblingsStored(pages, t, s, next)
    requires FirstLeaf(l) == FirstLeaf(t.kids[s]) && Stored(pages, l, To(FirstLeaf(r)))
    requires Stored(pages, r, NextLink(t.kids, s, next))
    ensures StoredAll(pages, Splice(t.kids, s, [l, r], 1), next)
  {
    hide Stored, Splice, NextLink, FirstLeaf;
    var kids := Splice(t.kids, s, [l, r], 1);
    forall i | 0 <= i < |kids|
      ensures Stored(pages, kids[i], NextLink(kids, i, next))
    {
      WidenSource(t, s, l, r, i);
      WidenLink(t, s, l, r, next, i);
    }
  }

  /** The leaf chained after a child of the widened node. */
  lemma {:induction false} WidenLink<K>(t: Tree<K>, s: nat, l: Tree<K>, r: Tree<K>, next: Link, i: nat)
    requires t.Node? && s < |t.kids| && i < |t.kids| + 1 && FirstLeaf(l) == FirstLeaf(t.kids[s])
    ensures NextLink(Splice(t.kids, s, [l, r], 1), i, next) ==
            if i == s then To(FirstLeaf(r)) else NextLink(t.kids, Source(s, i), next)
  {
    if i < |t.kids| {
      WidenSource(t, s, l, r, i + 1);
    }
  }

  lemma {:induction false} HalvesStored<K>(pages: Pages<K>, kids: seq<Tree<K>>, m: nat, next: Link)
    requires 0 < m < |kids| && StoredAll(pages, kids, next)
    ensures StoredAll(pages, kids[..m], To(FirstLeaf(kids[m]))) && StoredAll(pages, kids[m..], next)
  {
    forall i | 0 <= i < m
      ensures Stored(pages, kids[..m][i], NextLink(kids[..m], i, To(FirstLeaf(kids[m]))))
    {
      assert NextLink(kids[..m], i, To(FirstLeaf(kids[m]))) == NextLink(kids, i, next);
    }
    forall i | 0 <= i < |kids| - m
      ensures Stored(pages, kids[m..][i], NextLink(kids[m..], i, next))
    {
      assert kids[m..][i] == kids[m + i];
      assert NextLink(kids[m..], i, next) == NextLink(kids, m + i, next);
    }
  }

  /** The children of the widened node, by page: the left half keeps its page. */
  lemma {:induction false} WidenIds<K>(t: Tree<K>, s: nat, l: Tree<K>, r: Tree<K>)
    requires t.Node? && s < |t.kids| && l.id == t.kids[s].id
    ensures KidIds(Splice(t.kids, s, [l, r], 1)) == Splice(KidIds(t.kids), s + 1, [r.id], 0)
  {
    var a, b := KidIds(Splice(t.kids, s, [l, r], 1)), Splice(KidIds(t.kids), s + 1, [r.id], 0);
    forall i | 0 <= i < |a|
      ensures a[i] == b[i]
    {
      WidenSource(t, s, l, r, i);
    }
  }

  // ---------------------------------------------------------------- one level of the way back up

  /** Pages outside the subtree, among those in use before the insertion, are as they were. */
  ghost predicate Untouched<K>(a: Pages<K>, b: Pages<K>, t: Tree<K>, next: nat) {
    forall x :: x in a && x < next && x !in Ids(t) ==> x in b && b[x] == a[x]
  }

  /** Child `s` of `t` has grown into `g`, which is stored; the rest of `t` is still as it was in `a`. */
  ghost predicate ChildGrown<K>(a: Pages<K>, b: Pages<K>, t: Tree<K>, s: nat, g: Grown<K>, link: Link, lo: nat, n: nat) {
    && t.Node? && s < |t.kids| && Stored(a, t, link) && Distinct(t) && Below(t, lo) && lo <= n
    && GrownFrom(t.kids[s], g, lo, n)
    && Untouched(a, b, t.kids[s], lo)
    && GrownStored(b, g, NextLink(t.kids, s, link))
  }

  lemma {:induction false} SiblingsKept<K>(a: Pages<K>, b: Pages<K>, t: Tree<K>, s: nat, link: Link, lo: nat, n: nat, c: Pages<K>)
    requires t.Node? && s < |t.kids| && Stored(a, t, link) && Distinct(t) && Below(t, lo) && lo <= n
    requires Untouched(a, b, t.kids[s], lo)
    requires forall x :: x in b && x != t.id && x != n ==> x in c && c[x] == b[x]
    ensures SiblingsStored(c, t, s, link)
  {
    forall i | 0 <= i < |t.kids| && i != s
      ensures SamePages(a, c, Ids(t.kids[i]))
    {
      KidsFacts(t, i);
      assert Ids(t.kids[i]) !! Ids(t.kids[s]);
    }
    SiblingsFrame(a, c, t, s, link);
  }

  /** The page of the node itself, and a page not yet in use, belong to no part of the grown child. */
  lemma {:induction false} GrownApart<K>(t: Tree<K>, s: nat, g: Grown<K>, lo: nat, n: nat)
    requires t.Node? && Distinct(t) && Below(t, lo) && lo <= n && s < |t.kids| && GrownFrom(t.kids[s], g, lo, n)
    ensures t.id !in GrownIds(g) && n !in GrownIds(g) && t.id < lo
  {
    IdInIds(t);
    KidsFacts(t, s);
  }

  lemma {:induction false} ChildKept<K>(a: Pages<K>, b: Pages<K>, t: Tree<K>, s: nat, g: Grown<K>, link: Link, lo: nat, n: nat, c: Pages<K>)
    requires ChildGrown(a, b, t, s, g, link, lo, n)
    requires forall x :: x in b && x != t.id && x != n ==> x in c && c[x] == b[x]
    ensures SiblingsStored(c, t, s, link) && GrownStored(c, g, NextLink(t.kids, s, link))
    ensures Untouched(a, c, t, lo)
  {
    SiblingsKept(a, b, t, s, link, lo, n, c);
    GrownApart(t, s, g, lo, n);
    match g
    case One(k) => StoredFrame(b, c, k, NextLink(t.kids, s, link));
    case Two(l, _, r) =>
      StoredFrame(b, c, l, To(FirstLeaf(r)));
      StoredFrame(b, c, r, NextLink(t.kids, s, link));
  }

  lemma {:induction false} WidenKept<K>(a: Pages<K>, b: Pages<K>, t: Tree<K>, s: nat, g: Grown<K>, link: Link, lo: nat, n: nat, c: Pages<K>)
    requires ChildGrown(a, b, t, s, g, link, lo, n) && g.Two?
    requires forall x :: x in b && x != t.id && x != n ==> x in c && c[x] == b[x]
    ensures StoredAll(c, Splice(t.kids, s, [g.left, g.right], 1), link) && Untouched(a, c, t, lo) && t.id < n
    ensures KidIds(Splice(t.kids, s, [g.left, g.right], 1)) == Splice(KidIds(t.kids), s + 1, [g.right.id], 0)
  {
    ChildKept(a, b, t, s, g, link, lo, n, c);
    WidenStored(c, t, s, g.left, g.right, link);
    WidenIds(t, s, g.left, g.right);
    GrownApart(t, s, g, lo, n);
  }

  /** The parent has room: it takes the new separator and child in its own page. */
  lemma {:induction false} ClimbRoom<K>(a: Pages<K>, b: Pages<K>, t: Tree<K>, s: nat, g: Grown<K>, link: Link, lo: nat, n: nat)
    requires ChildGrown(a, b, t, s, g, link, lo, n) && g.Two? && |t.kids| == |t.keys| + 1
    ensures var c := b[t.id := NodePage(Splice(t.keys, s, [g.sep], 0), Splice(KidIds(t.kids), s + 1, [g.right.id], 0))];
            && Stored(c, Node(t.id, Splice(t.keys, s, [g.sep], 0), Splice(t.kids, s, [g.left, g.right], 1)), link)
            && Untouched(a, c, t, lo)
  {
    var c := b[t.id := NodePage(Splice(t.keys, s, [g.sep], 0), Splice(KidIds(t.kids), s + 1, [g.right.id], 0))];
    WidenKept(a, b, t, s, g, link, lo, n, c);
  }

  /** The parent is full: it splits, the right half going to page `n`. */
  lemma {:induction false} ClimbFull<K>(a: Pages<K>, b: Pages<K>, t: Tree<K>, s: nat, g: Grown<K>, link: Link, lo: nat, n: nat, c: Pages<K>)
    requires ChildGrown(a, b, t, s, g, link, lo, n) && g.Two? && |t.kids| == |t.keys| + 1 && |t.keys| >= 1
    requires var keys, ids := Splice(t.keys, s, [g.sep], 0), Splice(KidIds(t.kids), s + 1, [g.right.id], 0);
             var mid := |keys| / 2;
             c == b[t.id := NodePage(keys[..mid], ids[..mid + 1])][n := NodePage(keys[mid + 1..], ids[mid + 1..])]
    ensures GrownStored(c, SplitNode(t.id, Splice(t.keys, s, [g.sep], 0), Splice(t.kids, s, [g.left, g.right], 1), n), link)
    ensures Untouched(a, c, t, lo)
  {
    WidenKept(a, b, t, s, g, link, lo, n, c);
    SplitStored(c, t.id, Splice(t.keys, s, [g.sep], 0), Splice(t.kids, s, [g.left, g.right], 1), n, link);
  }

  lemma {:induction false} SplitStored<K>(c: Pages<K>, id: nat, keys: seq<K>, kids: seq<Tree<K>>, n: nat, link: Link)
    requires |keys| >= 2 && |kids| == |keys| + 1 && StoredAll(c, kids, link)
    requires id in c && c[id] == NodePage(keys[..|keys| / 2], KidIds(kids)[..|keys| / 2 + 1])
    requires n in c && c[n] == NodePage(keys[|keys| / 2 + 1..], KidIds(kids)[|keys| / 2 + 1..])
    ensures GrownStored(c, SplitNode(id, keys, kids, n), link)
  {
    var mid := |keys| / 2;
    HalvesStored(c, kids, mid + 1, link);
    assert KidIds(kids)[..mid + 1] == KidIds(kids[..mid + 1]);
    assert KidIds(kids)[mid + 1..] == KidIds(kids[mid + 1..]);
  }

  /** A child that grew without splitting leaves the page of its parent alone. */
  lemma {:induction false} ClimbQuiet<K>(a: Pages<K>, b: Pages<K>, t: Tree<K>, s: nat, k: Tree<K>, link: Link, lo: nat, n: nat)
    requires ChildGrown(a, b, t, s, One(k), link, lo, n)
    ensures Stored(b, Node(t.id, t.keys, t.kids[s := k]), link) && Untouched(a, b, t, lo)
  {
    ChildKept(a, b, t, s, One(k), link, lo, n, b);
    GrownApart(t, s, One(k), lo, n);
    ReplaceStored(b, t, s, k, link);
  }
}
