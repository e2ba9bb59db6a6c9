/** Building a tree bottom-up from sorted entries. */
module BTreeBulk {
  import opened BTreeSpec
  import opened BTreeInsert
  import opened BTreePages
  import opened BTreeIndexFile

  /** A finished node of the level under construction: its page and the first key below it. */
  datatype LevelEntry<K> = LevelEntry(page: nat, firstKey: K)

  ghost predicate Describes<K>(level: seq<LevelEntry<K>>, ts: seq<Tree<K>>) {
    && |level| == |ts|
    && forall i :: 0 <= i < |ts| ==> level[i].page == ts[i].id && StartsWith(ts[i], level[i].firstKey)
  }

  /** Trees side by side: pages in use, pairwise apart, below `next`. */
  ghost predicate Placed<K>(ts: seq<Tree<K>>, next: nat) {
    && (forall i :: 0 <= i < |ts| ==> Distinct(ts[i]) && Below(ts[i], next))
    && (forall i, j :: 0 <= i < j < |ts| ==> Ids(ts[i]) !! Ids(ts[j]))
  }

  /** The trees `ts` of height `h`, chained to `link`. */
  ghost predicate Row<K>(cap: nat, h: nat, pages: Pages<K>, ts: seq<Tree<K>>, link: Link) {
    SoundAll(cap, h, ts) && StoredAll(pages, ts, link)
  }

  lemma {:induction false} StoredAllFrame<K>(a: Pages<K>, b: Pages<K>, ts: seq<Tree<K>>, link: Link, next: nat)
    requires StoredAll(a, ts, link) && Placed(ts, next)
    requires forall x :: x in a && x < next ==> x in b && b[x] == a[x]
    ensures StoredAll(b, ts, link)
  {
    forall i | 0 <= i < |ts|
      ensures Stored(b, ts[i], NextLink(ts, i, link))
    {
      assert Below(ts[i], next);
      StoredFrame(a, b, ts[i], NextLink(ts, i, link));
    }
  }

  // ---------------------------------------------------------------- leaves

  ghost predicate AllLeaves<K>(ts: seq<Tree<K>>) {
    forall i :: 0 <= i < |ts| ==> ts[i].Leaf?
  }

  /** A new leaf at the right end, with the former last leaf chained to it. */
  lemma {:induction false} AddLeaf<K>(cap: nat, a: Pages<K>, ts: seq<Tree<K>>, next: nat, es: seq<Entry<K>>, b: Pages<K>)
    requires Row(cap, 0, a, ts, End) && Placed(ts, next) && next > 0 && AllLeaves(ts) && 1 <= |es| <= cap
    requires b == (var c := a[next := LeafPage(es, End)];
                   if ts == [] then c else c[ts[|ts| - 1].id := LeafPage(ts[|ts| - 1].entries, To(next))])
    ensures Row(cap, 0, b, ts + [Leaf(next, es)], End) && Placed(ts + [Leaf(next, es)], next + 1)
    ensures EntriesAll(ts + [Leaf(next, es)]) == EntriesAll(ts) + es
  {
    var leaf := Leaf(next, es);
    var us := ts + [leaf];
    LeafIds(ts, next);
    hide Placed, Stored, Entries, EntriesAll;
    forall i | 0 <= i < |us|
      ensures Stored(b, us[i], NextLink(us, i, End))
    {
      if i < |ts| {
        OldLeaf(a, ts, next, es, b, i);
      } else {
        NewLeaf(a, ts, next, es, b);
      }
    }
    LeafPlaced(ts, next, es);
    LeafEntries(ts, leaf);
  }

  lemma {:induction false} OldLeaf<K>(a: Pages<K>, ts: seq<Tree<K>>, next: nat, es: seq<Entry<K>>, b: Pages<K>, i: nat)
    requires StoredAll(a, ts, End) && AllLeaves(ts) && i < |ts|
    requires forall j :: 0 <= j < |ts| ==> 0 < ts[j].id < next
    requires forall j, k :: 0 <= k < j < |ts| ==> ts[k].id != ts[j].id
    requires b == a[next := LeafPage(es, End)][ts[|ts| - 1].id := LeafPage(ts[|ts| - 1].entries, To(next))]
    ensures Stored(b, ts[i], NextLink(ts + [Leaf(next, es)], i, End))
  {
    assert Stored(a, ts[i], NextLink(ts, i, End));
  }

  lemma {:induction false} NewLeaf<K>(a: Pages<K>, ts: seq<Tree<K>>, next: nat, es: seq<Entry<K>>, b: Pages<K>)
    requires forall j :: 0 <= j < |ts| ==> ts[j].id < next
    requires b == (var c := a[next := LeafPage(es, End)];
                   if ts == [] || !ts[|ts| - 1].Leaf? then c else c[ts[|ts| - 1].id := LeafPage(ts[|ts| - 1].entries, To(next))])
    ensures Stored(b, Leaf(next, es), NextLink(ts + [Leaf(next, es)], |ts|, End))
  {
  }

  lemma {:induction false} LeafEntries<K>(ts: seq<Tree<K>>, t: Tree<K>)
    ensures EntriesAll(ts + [t]) == EntriesAll(ts) + Entries(t)
  {
    EntriesAllConcat(ts, [t]);
    assert [t][1..] == [];
    assert EntriesAll([t]) == Entries(t) + EntriesAll([]);
  }

  lemma {:induction false} LeafPlaced<K>(ts: seq<Tree<K>>, next: nat, es: seq<Entry<K>>)
    requires Placed(ts, next) && next > 0
    ensures Placed(ts + [Leaf(next, es)], next + 1)
  {
    var us := ts + [Leaf(next, es)];
    forall i, j | 0 <= i < j < |us|
      ensures Ids(us[i]) !! Ids(us[j])
    {
      assert Below(ts[i], next);
    }
  }

  lemma {:induction false} LeafIds<K>(ts: seq<Tree<K>>, next: nat)
    requires Placed(ts, next)
    ensures forall i :: 0 <= i < |ts| ==> 0 < ts[i].id < next
    ensures forall i, j :: 0 <= j < i < |ts| ==> ts[j].id != ts[i].id
  {
    forall i | 0 <= i < |ts|
      ensures ts[i].id < next && ts[i].id > 0 && (forall j :: 0 <= j < i ==> ts[j].id != ts[i].id)
    {
      IdInIds(ts[i]);
      assert Below(ts[i], next);
      forall j | 0 <= j < i
        ensures ts[j].id != ts[i].id
      {
        IdInIds(ts[j]);
        assert Ids(ts[j]) !! Ids(ts[i]);
      }
    }
  }

  // ---------------------------------------------------------------- inner levels

  /** The leaf that what comes before `ts` is chained to. */
  ghost function LinkTo<K>(ts: seq<Tree<K>>): Link {
    if ts == [] then End else To(FirstLeaf(ts[0]))
  }

  lemma {:induction false} NodeSound<K>(cap: nat, h: nat, id: nat, keys: seq<K>, kids: seq<Tree<K>>)
    requires SoundAll(cap, h, kids) && 1 <= |kids| == |keys| + 1 <= cap + 1
    requires forall i :: 0 < i < |kids| ==> StartsWith(kids[i], keys[i - 1])
    ensures Sound(cap, h + 1, Node(id, keys, kids)) && Entries(Node(id, keys, kids)) == EntriesAll(kids)
  {
  }

  lemma {:induction false} GroupPlaced<K>(ups: seq<Tree<K>>, kids: seq<Tree<K>>, rest: seq<Tree<K>>, keys: seq<K>, next: nat)
    requires Placed(ups + kids + rest, next) && next > 0
    ensures Placed(ups + [Node(next, keys, kids)] + rest, next + 1)
  {
    var was, node := ups + kids + rest, Node(next, keys, kids);
    var all := ups + [node] + rest;
    assert forall i :: 0 <= i < |ups| ==> was[i] == ups[i];
    assert forall i :: 0 <= i < |kids| ==> was[|ups| + i] == kids[i];
    assert forall i :: 0 <= i < |rest| ==> was[|ups| + |kids| + i] == rest[i];
    forall i, j | 0 <= i < j < |kids|
      ensures Ids(kids[i]) !! Ids(kids[j])
    {
      assert Ids(was[|ups| + i]) !! Ids(was[|ups| + j]);
    }
    assert Distinct(node);
    forall i, j | 0 <= i < j < |all|
      ensures Ids(all[i]) !! Ids(all[j])
    {
      GroupApart(ups, kids, rest, keys, next, i, j);
    }
  }

  lemma {:induction false} GroupApart<K>(ups: seq<Tree<K>>, kids: seq<Tree<K>>, rest: seq<Tree<K>>, keys: seq<K>, next: nat, i: nat, j: nat)
    requires Placed(ups + kids + rest, next) && next > 0 && i < j < |ups| + 1 + |rest|
    ensures var all := ups + [Node(next, keys, kids)] + rest; Ids(all[i]) !! Ids(all[j])
  {
    var was, all := ups + kids + rest, ups + [Node(next, keys, kids)] + rest;
    if j < |ups| {
      assert was[i] == all[i] && was[j] == all[j];
    } else if j == |ups| {
      assert was[i] == all[i];
      assert Below(was[i], next);
      forall k | 0 <= k < |kids|
        ensures Ids(kids[k]) !! Ids(all[i])
      {
        assert was[|ups| + k] == kids[k];
        assert Ids(was[i]) !! Ids(was[|ups| + k]);
      }
    } else {
      var q := j - 1 + |kids|;
      assert was[q] == all[j];
      assert Below(was[q], next);
      if i < |ups| {
        assert was[i] == all[i];
      } else if i == |ups| {
        forall k | 0 <= k < |kids|
          ensures Ids(kids[k]) !! Ids(all[j])
        {
          assert was[|ups| + k] == kids[k];
          assert Ids(was[|ups| + k]) !! Ids(was[q]);
        }
      } else {
        assert was[i - 1 + |kids|] == all[i];
      }
    }
  }

  /** A node over the next group of the row below. */
  lemma {:induction false} AddNode<K>(cap: nat, h: nat, a: Pages<K>, ups: seq<Tree<K>>, kids: seq<Tree<K>>, rest: seq<Tree<K>>, keys: seq<K>, next: nat, b: Pages<K>)
    requires Row(cap, h + 1, a, ups, LinkTo(kids + rest)) && Row(cap, h, a, kids + rest, End) && Placed(ups + (kids + rest), next)
    requires 1 <= |kids| == |keys| + 1 <= cap + 1 && next > 0 && b == a[next := NodePage(keys, KidIds(kids))]
    requires forall i :: 0 < i < |kids| ==> StartsWith(kids[i], keys[i - 1])
    ensures var node := Node(next, keys, kids);
            && Row(cap, h + 1, b, ups + [node], LinkTo(rest)) && Row(cap, h, b, rest, End)
            && Placed(ups + [node] + rest, next + 1)
            && EntriesAll(ups + [node]) + EntriesAll(rest) == EntriesAll(ups) + EntriesAll(kids + rest)
  {
    hide Entries, EntriesAll, StartsWith, Placed, Sound;
    var node := Node(next, keys, kids);
    assert ups + (kids + rest) == ups + kids + rest;
    GroupPlaced(ups, kids, rest, keys, next);
    PlacedParts(ups, kids + rest, next);
    StoredAllFrame(a, b, ups, LinkTo(kids + rest), next);
    StoredAllFrame(a, b, kids + rest, End, next);
    RowParts(cap, h, b, kids, rest);
    NodeSound(cap, h, next, keys, kids);
    AppendStored(b, ups, node, LinkTo(kids + rest), LinkTo(rest));
    AddNodeEntries(ups, node, rest);
  }

  lemma {:induction false} AddNodeEntries<K>(ups: seq<Tree<K>>, node: Tree<K>, rest: seq<Tree<K>>)
    requires node.Node?
    ensures EntriesAll(ups + [node]) + EntriesAll(rest) == EntriesAll(ups) + EntriesAll(node.kids + rest)
  {
    EntriesAllConcat(ups, [node]);
    EntriesAllConcat(node.kids, rest);
    assert [node][1..] == [];
    assert EntriesAll([node]) == Entries(node) + EntriesAll([]);
  }

  lemma {:induction false} PlacedParts<K>(a: seq<Tree<K>>, b: seq<Tree<K>>, next: nat)
    requires Placed(a + b, next)
    ensures Placed(a, next) && Placed(b, next)
  {
    var s := a + b;
    assert forall i :: 0 <= i < |a| ==> s[i] == a[i];
    assert forall i :: 0 <= i < |b| ==> s[|a| + i] == b[i];
    forall i, j | 0 <= i < j < |b|
      ensures Ids(b[i]) !! Ids(b[j])
    {
      assert Ids(s[|a| + i]) !! Ids(s[|a| + j]);
    }
  }

  lemma {:induction false} RowParts<K>(cap: nat, h: nat, pages: Pages<K>, a: seq<Tree<K>>, b: seq<Tree<K>>)
    requires SoundAll(cap, h, a + b) && StoredAll(pages, a + b, End) && a != []
    ensures Row(cap, h, pages, a, LinkTo(b)) && Row(cap, h, pages, b, End)
  {
    var s := a + b;
    assert forall i :: 0 <= i < |a| ==> s[i] == a[i];
    assert forall i :: 0 <= i < |b| ==> s[|a| + i] == b[i];
    if b == [] {
      assert s == a;
    } else {
      HalvesStored(pages, s, |a|, End);
      assert s[..|a|] == a && s[|a|..] == b;
    }
  }

  lemma {:induction false} AppendStored<K>(pages: Pages<K>, ts: seq<Tree<K>>, t: Tree<K>, first: Link, link: Link)
    requires StoredAll(pages, ts, first) && first == To(FirstLeaf(t)) && Stored(pages, t, link)
    ensures StoredAll(pages, ts + [t], link)
  {
    var us := ts + [t];
    forall i | 0 <= i < |us|
      ensures Stored(pages, us[i], NextLink(us, i, link))
    {
      if i < |ts| {
        assert NextLink(us, i, link) == NextLink(ts, i, first);
      }
    }
  }

  // ---------------------------------------------------------------- the builder

  /** One more leaf, chained to from the leaf before it. */
  method AppendLeaf<K(!new)>(index: BTreeIndex<K>, es: seq<Entry<K>>, prevLeaf: Link, ghost ts: seq<Tree<K>>) returns (lid: nat)
    requires 1 <= |es| <= index.cap && index.nextPage >= 1 && AllLeaves(ts)
    requires Row(index.cap, 0, index.pages, ts, End) && Placed(ts, index.nextPage)
    requires prevLeaf == if ts == [] then End else To(ts[|ts| - 1].id)
    modifies index`pages, index`nextPage
    ensures lid == old(index.nextPage) && index.nextPage == lid + 1
    ensures Row(index.cap, 0, index.pages, ts + [Leaf(lid, es)], End) && Placed(ts + [Leaf(lid, es)], index.nextPage)
    ensures EntriesAll(ts + [Leaf(lid, es)]) == EntriesAll(ts) + es
  {
    hide Entries, EntriesAll, Placed, Row;
    ghost var a, n := index.pages, index.nextPage;
    lid := index.ReservePage();
    index.pages := index.pages[lid := LeafPage(es, End)];
    if prevLeaf != End {
      LastLeafPage(index.cap, a, ts, n, lid, LeafPage(es, End));
      var p := index.pages[prevLeaf.page];
      index.pages := index.pages[prevLeaf.page := LeafPage(p.entries, To(lid))];
    }
    AddLeaf(index.cap, a, ts, n, es, index.pages);
  }

  /** Leaves are filled to three quarters, and never left empty. */
  function LeafFill(cap: nat): (n: nat)
    requires cap >= 1
    ensures 1 <= n <= cap
  {
    if cap * 3 / 4 > 1 then cap * 3 / 4 else 1
  }

  /** Cuts the entries into leaves filled to three quarters, chaining each to the next. */
  method BuildLeaves<K(!new)>(index: BTreeIndex<K>, entries: seq<Entry<K>>) returns (level: seq<LevelEntry<K>>, ghost ts: seq<Tree<K>>)
    requires index.cap >= 1 && index.nextPage >= 1 && entries != []
    modifies index`pages, index`nextPage
    ensures ts != [] && Describes(level, ts) && EntriesAll(ts) == entries
    ensures Row(index.cap, 0, index.pages, ts, End) && Placed(ts, index.nextPage) && index.nextPage >= 1
  {
    var cap := index.cap;
    var fill := LeafFill(cap);
    var total := |entries|;
    level, ts := [], [];
    EmptyRow<K>(cap, 0, index.pages, End);
    assert Describes(level, ts) && Placed(ts, index.nextPage) && AllLeaves(ts);
    hide Entries, EntriesAll, Placed, Row, Describes, LeafFill, AllLeaves;
    var i := 0;
    var prevLeaf := End;
    while i < total
      invariant 0 <= i <= total && (i > 0 ==> ts != [])
      invariant Describes(level, ts) && EntriesAll(ts) == entries[..i] && AllLeaves(ts)
      invariant Row(cap, 0, index.pages, ts, End) && Placed(ts, index.nextPage) && index.nextPage >= 1
      invariant prevLeaf == if ts == [] then End else To(ts[|ts| - 1].id)
    {
      var take := if fill < total - i then fill else total - i;
      var es := entries[i..i + take];
      var lid := AppendLeaf(index, es, prevLeaf, ts);
      Prefix(entries, i, take);
      DescribesLeaf(level, ts, lid, es);
      level := level + [LevelEntry(lid, es[0].key)];
      ts := ts + [Leaf(lid, es)];
      prevLeaf := To(lid);
      i := i + take;
    }
    assert entries[..total] == entries;
  }

  lemma Prefix<T>(xs: seq<T>, i: nat, n: nat)
    requires i + n <= |xs|
    ensures xs[..i] + xs[i..i + n] == xs[..i + n]
  {
  }

  lemma {:induction false} DescribesLeaf<K>(level: seq<LevelEntry<K>>, ts: seq<Tree<K>>, lid: nat, es: seq<Entry<K>>)
    requires Describes(level, ts) && es != []
    ensures Describes(level + [LevelEntry(lid, es[0].key)], ts + [Leaf(lid, es)])
    ensures AllLeaves(ts) ==> AllLeaves(ts + [Leaf(lid, es)])
  {
  }

  lemma {:induction false} LastLeafPage<K>(cap: nat, pages: Pages<K>, ts: seq<Tree<K>>, next: nat, lid: nat, page: Page<K>)
    requires ts != [] && Row(cap, 0, pages, ts, End) && Placed(ts, next) && AllLeaves(ts) && lid == next
    ensures var t := ts[|ts| - 1]; t.id != lid && t.id in pages && pages[lid := page][t.id] == LeafPage(t.entries, End)
  {
    var i := |ts| - 1;
    IdInIds(ts[i]);
    assert Below(ts[i], next);
    assert Stored(pages, ts[i], NextLink(ts, i, End));
  }

  /** One more node of the upper level, over the next `nc` nodes of the lower one. */
  method AppendNode<K(!new)>(index: BTreeIndex<K>, level: seq<LevelEntry<K>>, ci: nat, nc: nat, ghost us: seq<Tree<K>>, ghost ts: seq<Tree<K>>, ghost h: nat)
      returns (nid: nat, ghost node: Tree<K>)
    requires 1 <= nc <= index.cap + 1 && ci + nc <= |level| && index.nextPage >= 1 && Describes(level, ts)
    requires Row(index.cap, h + 1, index.pages, us, LinkTo(ts[ci..])) && Row(index.cap, h, index.pages, ts[ci..], End)
    requires Placed(us + ts[ci..], index.nextPage)
    modifies index`pages, index`nextPage
    ensures index.nextPage == nid + 1 && node.id == nid && StartsWith(node, level[ci].firstKey)
    ensures Row(index.cap, h + 1, index.pages, us + [node], LinkTo(ts[ci + nc..])) && Row(index.cap, h, index.pages, ts[ci + nc..], End)
    ensures Placed(us + [node] + ts[ci + nc..], index.nextPage)
    ensures EntriesAll(us + [node]) + EntriesAll(ts[ci + nc..]) == EntriesAll(us) + EntriesAll(ts[ci..])
  {
    hide Entries, EntriesAll, Sound, StoredAll, Placed, StartsWith;
    var keys := seq(nc - 1, j requires 0 <= j < nc - 1 && ci + j + 1 < |level| => level[ci + j + 1].firstKey);
    var children := seq(nc, j requires 0 <= j < nc && ci + j < |level| => level[ci + j].page);
    ghost var a, kids, rest := index.pages, ts[ci..ci + nc], ts[ci + nc..];
    assert ts[ci..] == kids + rest && children == KidIds(kids);
    forall j | 0 < j < |kids|
      ensures StartsWith(kids[j], keys[j - 1])
    {
      assert kids[j] == ts[ci + j];
    }
    nid := index.ReservePage();
    index.pages := index.pages[nid := NodePage(keys, children)];
    AddNode(index.cap, h, a, us, kids, rest, keys, nid, index.pages);
    node := Node(nid, keys, kids);
    KidsSound(index.cap, h, kids, rest);
    NodeStarts(node, level[ci].firstKey, index.cap, h);
  }

  lemma {:induction false} KidsSound<K>(cap: nat, h: nat, kids: seq<Tree<K>>, rest: seq<Tree<K>>)
    requires SoundAll(cap, h, kids + rest)
    ensures SoundAll(cap, h, kids)
  {
    assert forall i :: 0 <= i < |kids| ==> (kids + rest)[i] == kids[i];
  }

  lemma {:induction false} NodeStarts<K>(node: Tree<K>, k: K, cap: nat, h: nat)
    requires node.Node? && node.kids != [] && SoundAll(cap, h, node.kids) && StartsWith(node.kids[0], k)
    ensures StartsWith(node, k)
  {
    FirstOfAll(cap, h, node.kids);
  }

  /** Puts one more level over `level`: a node for every `cap + 1` children. */
  method BuildLevel<K(!new)>(index: BTreeIndex<K>, level: seq<LevelEntry<K>>, ghost ts: seq<Tree<K>>, ghost h: nat)
      returns (up: seq<LevelEntry<K>>, ghost us: seq<Tree<K>>)
    requires index.cap >= 1 && index.nextPage >= 1 && |level| > 1 && Describes(level, ts)
    requires Row(index.cap, h, index.pages, ts, End) && Placed(ts, index.nextPage)
    modifies index`pages, index`nextPage
    ensures 0 < |up| < |level| && Describes(up, us) && EntriesAll(us) == EntriesAll(ts)
    ensures Row(index.cap, h + 1, index.pages, us, End) && Placed(us, index.nextPage) && index.nextPage >= 1
  {
    hide Entries, EntriesAll, Row, Placed, StartsWith;
    var n := |level|;
    up, us := [], [];
    var ci := 0;
    assert [] + ts[0..] == ts && ts[0..] == ts;
    EmptyRow(index.cap, h + 1, index.pages, LinkTo(ts));
    NoEntries(ts);
    while ci < n
      invariant 0 <= ci <= n && |up| <= ci && (ci > 0 ==> 0 < |up| < ci) && Describes(up, us)
      invariant Row(index.cap, h + 1, index.pages, us, LinkTo(ts[ci..])) && Row(index.cap, h, index.pages, ts[ci..], End)
      invariant Placed(us + ts[ci..], index.nextPage) && index.nextPage >= 1
      invariant EntriesAll(us) + EntriesAll(ts[ci..]) == EntriesAll(ts)
    {
      var nc := if index.cap + 1 < n - ci then index.cap + 1 else n - ci;
      var nid, node := AppendNode(index, level, ci, nc, us, ts, h);
      up := up + [LevelEntry(nid, level[ci].firstKey)];
      us := us + [node];
      ci := ci + nc;
    }
    assert ts[ci..] == [] && us + [] == us;
    NoEntries(us);
  }

  lemma EmptyRow<K>(cap: nat, h: nat, pages: Pages<K>, link: Link)
    ensures Row(cap, h, pages, [], link) && Placed<K>([], 0) && EntriesAll<K>([]) == []
  {
  }

  lemma NoEntries<K>(ts: seq<Tree<K>>)
    ensures EntriesAll([]) + EntriesAll(ts) == EntriesAll(ts) && EntriesAll(ts) + EntriesAll([]) == EntriesAll(ts)
  {
  }

  /** Builds the tree of the given sorted entries; the former tree, if any, is dropped. */
  method BulkBuild<K(!new)>(index: BTreeIndex<K>, entries: seq<Entry<K>>)
    requires index.Valid() && Sorted(index.cmp, entries)
    modifies index
    ensures index.Valid()
    ensures index.Contents() == if entries == [] then old(index.Contents()) else entries
  {
    if entries == [] {
      return;
    }
    hide Sound, Stored, Sorted, TotalOrder;
    var level, ts := BuildLeaves(index, entries);
    ghost var h := 0;
    while |level| > 1
      invariant 0 < |level| && Describes(level, ts) && EntriesAll(ts) == entries
      invariant Row(index.cap, h, index.pages, ts, End) && Placed(ts, index.nextPage) && index.nextPage >= 1
      decreases |level|
    {
      level, ts := BuildLevel(index, level, ts, h);
      h := h + 1;
    }
    Single(ts);
    IdInIds(ts[0]);
    assert Below(ts[0], index.nextPage) && Stored(index.pages, ts[0], NextLink(ts, 0, End));
    index.root := level[0].page;
    index.tree, index.height := ts[0], h;
  }

  lemma {:induction false} Single<K>(ts: seq<Tree<K>>)
    requires |ts| == 1
    ensures EntriesAll(ts) == Entries(ts[0])
  {
    assert ts[1..] == [];
    assert EntriesAll(ts[1..]) == [];
  }
}
