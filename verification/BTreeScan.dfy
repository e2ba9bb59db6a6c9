/** Range scans: down to the first leaf of the range, then along the chain of leaves. */
module BTreeScan {
  import opened BTreeSpec
  import opened BTreeInsert
  import opened BTreePages
  import opened BTreeIndexFile

  /** One end of a range: the key and whether the key itself belongs to the range. */
  datatype Bound<K> = Unbounded | Bound(key: K, incl: bool)

  predicate AboveLo<K>(cmp: Cmp<K>, lo: Bound<K>, k: K) {
    lo.Unbounded? || cmp(k, lo.key) > 0 || (lo.incl && cmp(k, lo.key) == 0)
  }

  predicate BelowHi<K>(cmp: Cmp<K>, hi: Bound<K>, k: K) {
    hi.Unbounded? || cmp(k, hi.key) < 0 || (hi.incl && cmp(k, hi.key) == 0)
  }

  /** The row ids of the entries inside the bounds, in order. */
  function RowsIn<K>(cmp: Cmp<K>, es: seq<Entry<K>>, lo: Bound<K>, hi: Bound<K>): seq<nat> {
    if es == [] then []
    else
      (if AboveLo(cmp, lo, es[0].key) && BelowHi(cmp, hi, es[0].key) then [es[0].row] else []) +
      RowsIn(cmp, es[1..], lo, hi)
  }

  /** Entry `e` lies within the bounds, those that are not inclusive left out. */
  ghost predicate Within<K>(cmp: Cmp<K>, lo: Bound<K>, hi: Bound<K>, e: Entry<K>) {
    && (lo.Bound? ==> if lo.incl then cmp(e.key, lo.key) >= 0 else cmp(e.key, lo.key) > 0)
    && (hi.Bound? ==> if hi.incl then cmp(e.key, hi.key) <= 0 else cmp(e.key, hi.key) < 0)
  }

  /** The rows inside the bounds are those of the entries within them. */
  lemma {:induction false} RowsInMean<K>(cmp: Cmp<K>, es: seq<Entry<K>>, lo: Bound<K>, hi: Bound<K>, row: nat)
    ensures row in RowsIn(cmp, es, lo, hi) <==> exists i :: 0 <= i < |es| && es[i].row == row && Within(cmp, lo, hi, es[i])
    decreases |es|
  {
    if es != [] {
      var rest := es[1..];
      RowsInMean(cmp, rest, lo, hi, row);
      assert Within(cmp, lo, hi, es[0]) <==> AboveLo(cmp, lo, es[0].key) && BelowHi(cmp, hi, es[0].key);
      hide Within, AboveLo, BelowHi;
      if i :| 0 <= i < |es| && es[i].row == row && Within(cmp, lo, hi, es[i]) {
        if i > 0 {
          assert rest[i - 1] == es[i];
        }
      }
      if i :| 0 <= i < |rest| && rest[i].row == row && Within(cmp, lo, hi, rest[i]) {
        assert es[i + 1] == rest[i];
      }
    }
  }

  lemma {:induction false} RowsInConcat<K>(cmp: Cmp<K>, a: seq<Entry<K>>, b: seq<Entry<K>>, lo: Bound<K>, hi: Bound<K>)
    ensures RowsIn(cmp, a + b, lo, hi) == RowsIn(cmp, a, lo, hi) + RowsIn(cmp, b, lo, hi)
  {
    hide AboveLo, BelowHi;
    if a == [] {
      assert a + b == b;
    } else {
      RowsInConcat(cmp, a[1..], b, lo, hi);
      assert (a + b)[1..] == a[1..] + b && (a + b)[0] == a[0];
      var head := if AboveLo(cmp, lo, a[0].key) && BelowHi(cmp, hi, a[0].key) then [a[0].row] else [];
      var x, y := RowsIn(cmp, a[1..], lo, hi), RowsIn(cmp, b, lo, hi);
      assert RowsIn(cmp, a, lo, hi) == head + x;
      assert head + (x + y) == head + x + y;
    }
  }

  lemma {:induction false} RowsInNone<K>(cmp: Cmp<K>, es: seq<Entry<K>>, lo: Bound<K>, hi: Bound<K>)
    requires forall i :: 0 <= i < |es| ==> !AboveLo(cmp, lo, es[i].key) || !BelowHi(cmp, hi, es[i].key)
    ensures RowsIn(cmp, es, lo, hi) == []
  {
    if es != [] {
      RowsInNone(cmp, es[1..], lo, hi);
    }
  }

  /** A callback sees the rows one by one and says whether to go on; its answer may depend on all it has seen. */
  type Callback = seq<nat> -> bool

  /** The rows a callback hears of `rows`, given that it went on after the first `n`. */
  ghost function Heard(rows: seq<nat>, n: nat, cb: Callback): seq<nat>
    decreases |rows| - n
  {
    if n >= |rows| then rows
    else if !cb(rows[..n + 1]) then rows[..n + 1]
    else Heard(rows, n + 1, cb)
  }

  ghost predicate WentOn(rows: seq<nat>, cb: Callback) {
    forall n :: 0 < n <= |rows| ==> cb(rows[..n])
  }

  lemma {:induction false} HeardAfter(rows: seq<nat>, m: nat, n: nat, cb: Callback)
    requires m <= n <= |rows| && forall i :: m < i <= n ==> cb(rows[..i])
    ensures Heard(rows, m, cb) == Heard(rows, n, cb)
    decreases n - m
  {
    if m < n {
      HeardAfter(rows, m + 1, n, cb);
    }
  }

  lemma {:induction false} HeardAll(rows: seq<nat>, cb: Callback)
    requires WentOn(rows, cb)
    ensures Heard(rows, 0, cb) == rows
  {
    HeardAfter(rows, 0, |rows|, cb);
  }

  /** The callback goes on through `seen` and stops at the next row. */
  lemma {:induction false} HeardStop(seen: seq<nat>, r: nat, rest: seq<nat>, cb: Callback)
    requires WentOn(seen, cb) && !cb(seen + [r])
    ensures Heard(seen + [r] + rest, 0, cb) == seen + [r]
  {
    var rows := seen + [r] + rest;
    assert forall i :: 0 < i <= |seen| ==> rows[..i] == seen[..i];
    HeardAfter(rows, 0, |seen|, cb);
    assert rows[..|seen| + 1] == seen + [r];
  }

  lemma {:induction false} WentOnMore(seen: seq<nat>, r: nat, cb: Callback)
    requires WentOn(seen, cb) && cb(seen + [r])
    ensures WentOn(seen + [r], cb)
  {
    var more := seen + [r];
    assert forall i :: 0 < i <= |seen| ==> more[..i] == seen[..i];
    assert more[..|more|] == more;
  }

  // ---------------------------------------------------------------- the chain of leaves

  /** The leaves chained from `link` hold exactly `rest`, in order. */
  ghost predicate Chain<K>(pages: Pages<K>, link: Link, rest: seq<Entry<K>>)
    decreases |rest|
  {
    match link
    case End => rest == []
    case To(p) =>
      && p in pages && pages[p].LeafPage? && pages[p].entries != [] && pages[p].entries <= rest
      && Chain(pages, pages[p].sibling, rest[|pages[p].entries|..])
  }

  lemma {:induction false} ChainTree<K>(pages: Pages<K>, cap: nat, h: nat, t: Tree<K>, link: Link, rest: seq<Entry<K>>)
    requires Sound(cap, h, t) && Stored(pages, t, link) && Chain(pages, link, rest)
    ensures Chain(pages, To(FirstLeaf(t)), Entries(t) + rest)
    decreases t, 1
  {
    match t
    case Leaf(id, es) =>
      assert (es + rest)[|es|..] == rest;
    case Node(_, _, kids) =>
      ChainKids(pages, cap, h - 1, kids, 0, link, rest);
      assert kids[0..] == kids;
  }

  lemma {:induction false} ChainKids<K>(pages: Pages<K>, cap: nat, h: nat, kids: seq<Tree<K>>, i: nat, link: Link, rest: seq<Entry<K>>)
    requires i < |kids| && SoundAll(cap, h, kids) && StoredAll(pages, kids, link) && Chain(pages, link, rest)
    ensures Chain(pages, To(FirstLeaf(kids[i])), EntriesAll(kids[i..]) + rest)
    decreases kids, 0, |kids| - i
  {
    var tail := EntriesAll(kids[i + 1..]) + rest;
    assert kids[i..][1..] == kids[i + 1..];
    assert EntriesAll(kids[i..]) + rest == Entries(kids[i]) + tail;
    if i + 1 < |kids| {
      ChainKids(pages, cap, h, kids, i + 1, link, rest);
    } else {
      assert kids[i + 1..] == [];
      assert tail == rest;
    }
    ChainTree(pages, cap, h, kids[i], NextLink(kids, i, link), tail);
  }

  /** The leaves after child `s` of a node. */
  lemma {:induction false} ChainAfter<K>(pages: Pages<K>, cap: nat, h: nat, t: Tree<K>, s: nat, link: Link, rest: seq<Entry<K>>)
    requires t.Node? && Sound(cap, h, t) && Stored(pages, t, link) && s < |t.kids| && Chain(pages, link, rest)
    ensures Chain(pages, NextLink(t.kids, s, link), EntriesAll(t.kids[s + 1..]) + rest)
  {
    hide Entries, Separates, Chain;
    if s + 1 < |t.kids| {
      ChainKids(pages, cap, h - 1, t.kids, s + 1, link, rest);
    } else {
      assert t.kids[s + 1..] == [];
      assert EntriesAll<K>([]) + rest == rest;
    }
  }

  // ---------------------------------------------------------------- what a scan looks at

  ghost predicate AllLt<K>(cmp: Cmp<K>, es: seq<Entry<K>>, k: K) {
    forall i :: 0 <= i < |es| ==> cmp(es[i].key, k) < 0
  }

  ghost function ScanSlot<K>(cmp: Cmp<K>, keys: seq<K>, lo: Bound<K>): (s: nat)
    ensures s <= |keys|
  {
    if lo.Bound? then Slot(cmp, keys, lo.key) else 0
  }

  /** The entries in leaves left of the one that a scan from `lo` reaches; the scan never looks at them. */
  ghost function Skipped<K>(cmp: Cmp<K>, cap: nat, h: nat, t: Tree<K>, lo: Bound<K>): seq<Entry<K>>
    requires Sound(cap, h, t)
    decreases t
  {
    match t
    case Leaf(_, _) => []
    case Node(_, keys, kids) =>
      var s := ScanSlot(cmp, keys, lo);
      EntriesAll(kids[..s]) + Skipped(cmp, cap, h - 1, kids[s], lo)
  }

  /** The entries of the leaf that a scan from `lo` reaches. */
  ghost function Reached<K>(cmp: Cmp<K>, cap: nat, h: nat, t: Tree<K>, lo: Bound<K>): seq<Entry<K>>
    requires Sound(cap, h, t)
    decreases t
  {
    match t
    case Leaf(_, es) => es
    case Node(_, keys, kids) => Reached(cmp, cap, h - 1, kids[ScanSlot(cmp, keys, lo)], lo)
  }

  /** The entries in the leaves after that one. */
  ghost function Ahead<K>(cmp: Cmp<K>, cap: nat, h: nat, t: Tree<K>, lo: Bound<K>): seq<Entry<K>>
    requires Sound(cap, h, t)
    decreases t
  {
    match t
    case Leaf(_, _) => []
    case Node(_, keys, kids) =>
      var s := ScanSlot(cmp, keys, lo);
      Ahead(cmp, cap, h - 1, kids[s], lo) + EntriesAll(kids[s + 1..])
  }

  /** The number of leading entries below `k`. */
  function Lows<K>(cmp: Cmp<K>, es: seq<Entry<K>>, k: K): (n: nat)
    ensures n <= |es|
    ensures forall i :: 0 <= i < n ==> cmp(es[i].key, k) < 0
    ensures n < |es| ==> cmp(es[n].key, k) >= 0
  {
    if es == [] || cmp(es[0].key, k) >= 0 then 0 else 1 + Lows(cmp, es[1..], k)
  }

  /** Whether the first scanned entry is left out because it equals an exclusive lower bound. */
  predicate Skips<K>(cmp: Cmp<K>, lo: Bound<K>, k: K) {
    lo.Bound? && !lo.incl && cmp(k, lo.key) == 0
  }

  /** Where the scan of a leaf begins: only one entry equal to an exclusive bound is left out. */
  function HandedFrom<K>(cmp: Cmp<K>, es: seq<Entry<K>>, lo: Bound<K>): (n: nat)
    ensures n <= |es|
  {
    if lo.Unbounded? then 0
    else
      var n := Lows(cmp, es, lo.key);
      if n < |es| && Skips(cmp, lo, es[n].key) then n + 1 else n
  }

  /** The entries a scan looks at for their upper bound and hands to the callback. */
  ghost function Visited<K>(cmp: Cmp<K>, cap: nat, h: nat, t: Tree<K>, lo: Bound<K>): seq<Entry<K>>
    requires Sound(cap, h, t)
  {
    var es := Reached(cmp, cap, h, t, lo);
    es[HandedFrom(cmp, es, lo)..] + Ahead(cmp, cap, h, t, lo)
  }

  /** The rows a scan hands to the callback, as long as it goes on. */
  ghost function Handed<K>(cmp: Cmp<K>, cap: nat, h: nat, t: Tree<K>, lo: Bound<K>, hi: Bound<K>): seq<nat>
    requires Sound(cap, h, t)
  {
    RowsIn(cmp, Visited(cmp, cap, h, t, lo), Unbounded, hi)
  }

  // ---------------------------------------------------------------- the scan

  lemma {:induction false} BeyondHi<K(!new)>(cmp: Cmp<K>, es: seq<Entry<K>>, lo: Bound<K>, hi: Bound<K>)
    requires TotalOrder(cmp) && Sorted(cmp, es) && es != [] && !BelowHi(cmp, hi, es[0].key)
    ensures RowsIn(cmp, es, lo, hi) == []
  {
    forall i | 0 <= i < |es|
      ensures !BelowHi(cmp, hi, es[i].key)
    {
      if i > 0 {
        var x, y, k := es[0].key, es[i].key, hi.key;
        assert cmp(x, y) <= 0;
        BelowBoth(cmp, x, y, k);
        assert cmp(y, k) <= 0 ==> cmp(x, k) <= 0;
      }
    }
    RowsInNone(cmp, es, lo, hi);
  }

  /** One more entry that is in the range, or is not. */
  lemma {:induction false} RowsInNext<K>(cmp: Cmp<K>, done: seq<Entry<K>>, e: Entry<K>, lo: Bound<K>, hi: Bound<K>)
    ensures RowsIn(cmp, done + [e], lo, hi) ==
            RowsIn(cmp, done, lo, hi) + if AboveLo(cmp, lo, e.key) && BelowHi(cmp, hi, e.key) then [e.row] else []
  {
    RowsInConcat(cmp, done, [e], lo, hi);
    assert [e][1..] == [];
    assert RowsIn(cmp, [e], lo, hi) == (if AboveLo(cmp, lo, e.key) && BelowHi(cmp, hi, e.key) then [e.row] else []) + RowsIn(cmp, [], lo, hi);
  }

  lemma {:induction false} StopAtHi<K(!new)>(cmp: Cmp<K>, done: seq<Entry<K>>, more: seq<Entry<K>>, lo: Bound<K>, hi: Bound<K>, cb: Callback)
    requires TotalOrder(cmp) && Sorted(cmp, more) && more != [] && !BelowHi(cmp, hi, more[0].key)
    requires WentOn(RowsIn(cmp, done, lo, hi), cb)
    ensures Heard(RowsIn(cmp, done + more, lo, hi), 0, cb) == RowsIn(cmp, done, lo, hi)
  {
    BeyondHi(cmp, more, lo, hi);
    RowsInConcat(cmp, done, more, lo, hi);
    assert RowsIn(cmp, done + more, lo, hi) == RowsIn(cmp, done, lo, hi);
    HeardAll(RowsIn(cmp, done, lo, hi), cb);
  }

  lemma {:induction false} StopAtCallback<K>(cmp: Cmp<K>, done: seq<Entry<K>>, e: Entry<K>, more: seq<Entry<K>>, lo: Bound<K>, hi: Bound<K>, cb: Callback)
    requires AboveLo(cmp, lo, e.key) && BelowHi(cmp, hi, e.key)
    requires WentOn(RowsIn(cmp, done, lo, hi), cb) && !cb(RowsIn(cmp, done, lo, hi) + [e.row])
    ensures Heard(RowsIn(cmp, done + [e] + more, lo, hi), 0, cb) == RowsIn(cmp, done, lo, hi) + [e.row]
  {
    RowsInNext(cmp, done, e, lo, hi);
    RowsInConcat(cmp, done + [e], more, lo, hi);
    HeardStop(RowsIn(cmp, done, lo, hi), e.row, RowsIn(cmp, more, lo, hi), cb);
  }

  /** Hands the entries of one leaf to the callback. `done` are the entries handed before, `after` those in later leaves. */
  method ScanEntries<K(!new)>(cmp: Cmp<K>, es: seq<Entry<K>>, start: nat, first: bool, lo: Bound<K>, hi: Bound<K>, cb: Callback, seen0: seq<nat>, ghost done: seq<Entry<K>>, ghost after: seq<Entry<K>>, ghost from: nat)
      returns (seen: seq<nat>, stop: bool)
    requires TotalOrder(cmp) && start <= from <= |es| && Sorted(cmp, es + after)
    requires from == if first && start < |es| && Skips(cmp, lo, es[start].key) then start + 1 else start
    requires seen0 == RowsIn(cmp, done, Unbounded, hi) && WentOn(seen0, cb)
    ensures stop ==> seen == Heard(RowsIn(cmp, done + es[from..] + after, Unbounded, hi), 0, cb)
    ensures !stop ==> seen == RowsIn(cmp, done + es[from..], Unbounded, hi) && WentOn(seen, cb)
  {
    hide TotalOrder, RowsIn, Heard, WentOn, Sorted, Skips;
    seen, stop := seen0, false;
    var i := start;
    assert done + es[from..from] == done;
    while i < |es|
      invariant start <= i <= |es| && !stop && WentOn(seen, cb)
      invariant i < from ==> i == start && seen == seen0
      invariant i >= from ==> seen == RowsIn(cmp, done + es[from..i], Unbounded, hi)
    {
      var e := es[i];
      if first && i == start && Skips(cmp, lo, e.key) {
      } else {
        ghost var past, more := done + es[from..i], es[i + 1..] + after;
        assert done + es[from..i + 1] == past + [e];
        assert done + es[from..] + after == past + [e] + more && past + [e] + more == past + ([e] + more);
        RowsInNext(cmp, past, e, Unbounded, hi);
        if !BelowHi(cmp, hi, e.key) {
          SortedTail(cmp, es, after, i);
          StopAtHi(cmp, past, [e] + more, Unbounded, hi, cb);
          stop := true;
          return;
        }
        if !cb(seen + [e.row]) {
          StopAtCallback(cmp, past, e, more, Unbounded, hi, cb);
          seen, stop := seen + [e.row], true;
          return;
        }
        WentOnMore(seen, e.row, cb);
        seen := seen + [e.row];
      }
      i := i + 1;
    }
    assert es[from..|es|] == es[from..];
  }

  lemma {:induction false} SortedTail<K>(cmp: Cmp<K>, es: seq<Entry<K>>, after: seq<Entry<K>>, i: nat)
    requires i < |es| && Sorted(cmp, es + after)
    ensures Sorted(cmp, [es[i]] + (es[i + 1..] + after))
  {
    var all := es + after;
    assert [es[i]] + (es[i + 1..] + after) == all[i..];
  }

  /** One step down: what lies right of the child joins the leaves ahead. */
  lemma {:induction false} ReachDown<K(!new)>(cmp: Cmp<K>, cap: nat, h: int, pages: Pages<K>, next: nat, t: Tree<K>, link: Link, rest: seq<Entry<K>>, lo: Bound<K>)
    requires TotalOrder(cmp) && Standing(cmp, cap, h, t, pages, link, next) && t.Node? && Chain(pages, link, rest)
    ensures var s := ScanSlot(cmp, t.keys, lo);
            && s < |t.kids|
            && Standing(cmp, cap, h - 1, t.kids[s], pages, NextLink(t.kids, s, link), next)
            && Chain(pages, NextLink(t.kids, s, link), EntriesAll(t.kids[s + 1..]) + rest)
  {
    hide TotalOrder, Chain;
    var s := ScanSlot(cmp, t.keys, lo);
    ChainAfter(pages, cap, h, t, s, link, rest);
    KidBelow(t, s, next);
    ChildParts(cmp, t.kids, s);
    hide Entries, Sorted, Distinct, Below;
  }

  lemma {:induction false} SpecDown<K>(cmp: Cmp<K>, cap: nat, h: nat, t: Tree<K>, lo: Bound<K>, rest: seq<Entry<K>>)
    requires Sound(cap, h, t) && t.Node?
    ensures var s := ScanSlot(cmp, t.keys, lo);
            && s < |t.kids| && h > 0 && Sound(cap, h - 1, t.kids[s])
            && Reached(cmp, cap, h, t, lo) == Reached(cmp, cap, h - 1, t.kids[s], lo)
            && Ahead(cmp, cap, h, t, lo) + rest == Ahead(cmp, cap, h - 1, t.kids[s], lo) + (EntriesAll(t.kids[s + 1..]) + rest)
  {
    var s := ScanSlot(cmp, t.keys, lo);
    var a, b := Ahead(cmp, cap, h - 1, t.kids[s], lo), EntriesAll(t.kids[s + 1..]);
    assert (a + b) + rest == a + (b + rest);
  }

  /** On the way down from the root `t0`: at page `leaf`, with `rest` in the leaves that follow the subtree `t`. */
  ghost predicate OnWay<K(!new)>(cmp: Cmp<K>, cap: nat, pages: Pages<K>, next: nat, h0: nat, t0: Tree<K>, lo: Bound<K>,
                                 leaf: nat, t: Tree<K>, h: nat, link: Link, rest: seq<Entry<K>>)
    requires Sound(cap, h0, t0)
  {
    && Standing(cmp, cap, h, t, pages, link, next) && t.id == leaf && Sound(cap, h, t)
    && leaf in pages && (pages[leaf].NodePage? <==> t.Node?) && (t.Leaf? ==> pages[leaf] == LeafPage(t.entries, link))
    && Chain(pages, link, rest)
    && Reached(cmp, cap, h, t, lo) == Reached(cmp, cap, h0, t0, lo)
    && Ahead(cmp, cap, h, t, lo) + rest == Ahead(cmp, cap, h0, t0, lo)
  }

  lemma {:induction false} AtRoot<K(!new)>(cmp: Cmp<K>, cap: nat, pages: Pages<K>, next: nat, h: nat, t: Tree<K>, lo: Bound<K>)
    requires Standing(cmp, cap, h, t, pages, End, next)
    ensures Sound(cap, h, t) && OnWay(cmp, cap, pages, next, h, t, lo, t.id, t, h, End, [])
  {
    StandingFacts(cmp, cap, h, t, pages, End, next);
    ReachStart(pages, Ahead(cmp, cap, h, t, lo));
    hide Chain, Reached, Ahead, Standing, Sound;
  }

  lemma {:induction false} OnWayDown<K(!new)>(cmp: Cmp<K>, cap: nat, pages: Pages<K>, next: nat, h0: nat, t0: Tree<K>, lo: Bound<K>,
                                              leaf: nat, t: Tree<K>, h: nat, link: Link, rest: seq<Entry<K>>)
    requires TotalOrder(cmp) && Sound(cap, h0, t0) && OnWay(cmp, cap, pages, next, h0, t0, lo, leaf, t, h, link, rest) && t.Node?
    ensures var s := ScanSlot(cmp, t.keys, lo);
            && s < |t.kids| && h > 0
            && OnWay(cmp, cap, pages, next, h0, t0, lo, t.kids[s].id, t.kids[s], h - 1, NextLink(t.kids, s, link),
                     EntriesAll(t.kids[s + 1..]) + rest)
  {
    var s := ScanSlot(cmp, t.keys, lo);
    SpecDown(cmp, cap, h, t, lo, rest);
    ReachDown(cmp, cap, h, pages, next, t, link, rest, lo);
    StandingFacts(cmp, cap, h - 1, t.kids[s], pages, NextLink(t.kids, s, link), next);
    hide TotalOrder, Chain, Reached, Ahead, Standing, Sound, EntriesAll, ScanSlot;
  }

  lemma {:induction false} WayPoint<K(!new)>(cmp: Cmp<K>, cap: nat, pages: Pages<K>, next: nat, h0: nat, t0: Tree<K>, lo: Bound<K>,
                                             leaf: nat, t: Tree<K>, h: nat, link: Link, rest: seq<Entry<K>>)
    requires Sound(cap, h0, t0) && OnWay(cmp, cap, pages, next, h0, t0, lo, leaf, t, h, link, rest)
    ensures leaf in pages && (pages[leaf].NodePage? <==> t.Node?) && t.id == leaf
    ensures Standing(cmp, cap, h, t, pages, link, next)
    ensures t.Leaf? ==> pages[leaf] == LeafPage(t.entries, link) && t.entries == Reached(cmp, cap, h0, t0, lo)
    ensures t.Leaf? ==> Chain(pages, link, Ahead(cmp, cap, h0, t0, lo))
  {
    if t.Leaf? {
      LeafReached(cmp, cap, h, t, lo, rest);
    }
    hide Chain, Reached, Ahead, Standing, Sound;
  }

  /** One step down. */
  method StepDown<K(!new)>(index: BTreeIndex<K>, lo: Bound<K>, leaf: nat, ghost t: Tree<K>, ghost h: nat, ghost link: Link,
                           ghost rest: seq<Entry<K>>)
    returns (leaf': nat, ghost t': Tree<K>, ghost h': nat, ghost link': Link, ghost rest': seq<Entry<K>>)
    requires TotalOrder(index.cmp) && Sound(index.cap, index.height, index.tree)
    requires OnWay(index.cmp, index.cap, index.pages, index.nextPage, index.height, index.tree, lo, leaf, t, h, link, rest)
    requires t.Node?
    ensures OnWay(index.cmp, index.cap, index.pages, index.nextPage, index.height, index.tree, lo, leaf', t', h', link', rest')
    ensures t' < t
  {
    WayPoint(index.cmp, index.cap, index.pages, index.nextPage, index.height, index.tree, lo, leaf, t, h, link, rest);
    OnWayDown(index.cmp, index.cap, index.pages, index.nextPage, index.height, index.tree, lo, leaf, t, h, link, rest);
    hide *;
    var slot := FindChild(index, leaf, lo, t, link, h);
    leaf' := index.pages[leaf].children[slot];
    t', h', link', rest' := t.kids[slot], h - 1, NextLink(t.kids, slot, link), EntriesAll(t.kids[slot + 1..]) + rest;
  }

  /** Descends to the leaf where the range begins. */
  method ReachLeaf<K(!new)>(index: BTreeIndex<K>, lo: Bound<K>) returns (leaf: nat, ghost es: seq<Entry<K>>, ghost link: Link)
    requires index.Valid() && index.root != 0
    ensures leaf in index.pages && index.pages[leaf] == LeafPage(es, link)
    ensures es == Reached(index.cmp, index.cap, index.height, index.tree, lo)
    ensures Chain(index.pages, link, Ahead(index.cmp, index.cap, index.height, index.tree, lo))
  {
    ghost var cmp, cap, pages, next, h0, t0 := index.cmp, index.cap, index.pages, index.nextPage, index.height, index.tree;
    AtRoot(cmp, cap, pages, next, h0, t0, lo);
    hide *;
    ghost var t, h: nat, rest: seq<Entry<K>> := t0, h0, [];
    leaf, link := index.root, End;
    WayPoint(cmp, cap, pages, next, h0, t0, lo, leaf, t, h, link, rest);
    while index.pages[leaf].NodePage?
      invariant OnWay(cmp, cap, pages, next, h0, t0, lo, leaf, t, h, link, rest)
      invariant leaf in index.pages && (index.pages[leaf].NodePage? <==> t.Node?)
      decreases t
    {
      leaf, t, h, link, rest := StepDown(index, lo, leaf, t, h, link, rest);
      WayPoint(cmp, cap, pages, next, h0, t0, lo, leaf, t, h, link, rest);
    }
    WayPoint(cmp, cap, pages, next, h0, t0, lo, leaf, t, h, link, rest);
    es := t.entries;
  }

  /** The child of an inner node that a scan takes. */
  method FindChild<K(!new)>(index: BTreeIndex<K>, page: nat, lo: Bound<K>, ghost t: Tree<K>, ghost link: Link, ghost h: nat)
      returns (slot: nat)
    requires TotalOrder(index.cmp) && Standing(index.cmp, index.cap, h, t, index.pages, link, index.nextPage)
    requires t.Node? && t.id == page && page in index.pages
    ensures slot == ScanSlot(index.cmp, t.keys, lo) && slot < |t.kids|
    ensures index.pages[page].NodePage? && slot < |index.pages[page].children|
    ensures index.pages[page].children[slot] == t.kids[slot].id
  {
    slot := 0;
    if lo.Bound? {
      NodeKeysSorted(index.cmp, index.cap, h, t);
      slot := FindSlot(index.cmp, index.pages[page].keys, lo.key);
    }
  }

  lemma {:induction false} ReachStart<K>(pages: Pages<K>, all: seq<Entry<K>>)
    ensures Chain(pages, End, []) && all + [] == all
  {
  }

  lemma {:induction false} LeafReached<K>(cmp: Cmp<K>, cap: nat, h: nat, t: Tree<K>, lo: Bound<K>, rest: seq<Entry<K>>)
    requires Sound(cap, h, t) && t.Leaf?
    ensures Reached(cmp, cap, h, t, lo) == t.entries && Ahead(cmp, cap, h, t, lo) + rest == rest
  {
  }

  /** The search of a leaf finds the entries below the bound. */
  lemma {:induction false} StartIsLows<K>(cmp: Cmp<K>, es: seq<Entry<K>>, k: K, start: nat)
    requires start <= |es| && forall i :: 0 <= i < start ==> cmp(es[i].key, k) < 0
    requires forall i :: start <= i < |es| ==> cmp(es[i].key, k) >= 0
    ensures start == Lows(cmp, es, k)
  {
    if start > 0 {
      StartIsLows(cmp, es[1..], k, start - 1);
    }
  }

  lemma {:induction false} TailSorted<K>(cmp: Cmp<K>, a: seq<Entry<K>>, b: seq<Entry<K>>)
    requires Sorted(cmp, a + b)
    ensures Sorted(cmp, b)
  {
    assert forall i :: 0 <= i < |b| ==> (a + b)[|a| + i] == b[i];
  }

  /** Follows the chain of leaves from `link`; `done` are the entries already handed on, `rest` those still ahead. */
  method ScanChain<K(!new)>(index: BTreeIndex<K>, link: Link, lo: Bound<K>, hi: Bound<K>, cb: Callback, seen0: seq<nat>, ghost done0: seq<Entry<K>>, ghost rest0: seq<Entry<K>>)
      returns (seen: seq<nat>)
    requires TotalOrder(index.cmp) && Chain(index.pages, link, rest0) && Sorted(index.cmp, rest0)
    requires seen0 == RowsIn(index.cmp, done0, Unbounded, hi) && WentOn(seen0, cb)
    ensures seen == Heard(RowsIn(index.cmp, done0 + rest0, Unbounded, hi), 0, cb)
  {
    hide TotalOrder, RowsIn, Heard, WentOn;
    seen := seen0;
    var cur := link;
    ghost var done, rest := done0, rest0;
    while cur != End
      invariant done + rest == done0 + rest0 && Chain(index.pages, cur, rest) && Sorted(index.cmp, rest)
      invariant seen == RowsIn(index.cmp, done, Unbounded, hi) && WentOn(seen, cb)
      decreases |rest|
    {
      var p := index.pages[cur.page];
      ghost var after := rest[|p.entries|..];
      assert rest == p.entries + after && p.entries[0..] == p.entries;
      assert done + p.entries + after == done + rest;
      var stop;
      seen, stop := ScanEntries(index.cmp, p.entries, 0, false, lo, hi, cb, seen, done, after, 0);
      if stop {
        return;
      }
      TailSorted(index.cmp, p.entries, after);
      done, rest := done + p.entries, after;
      cur := p.sibling;
    }
    assert done + rest == done;
    HeardAll(seen, cb);
  }

  /**
   * The callback hears the entries from the leaf reached on, until the upper bound or until it
   * stops; whether these are the entries inside the bounds is said by `ScanExactIff`.
   */
  method RangeScan<K(!new)>(index: BTreeIndex<K>, lo: Bound<K>, hi: Bound<K>, cb: Callback) returns (seen: seq<nat>)
    requires index.Valid()
    ensures index.root == 0 ==> seen == []
    ensures index.root != 0 ==> seen == Heard(Handed(index.cmp, index.cap, index.height, index.tree, lo, hi), 0, cb)
    ensures AtMostOne(index.cmp, index.Contents(), lo) ==>
              seen == Heard(RowsIn(index.cmp, index.Contents(), lo, hi), 0, cb)
  {
    if index.root == 0 {
      return [];
    }
    seen := ScanTree(index, lo, hi, cb);
    if AtMostOne(index.cmp, index.Contents(), lo) {
      DistinctExact(index.cmp, index.cap, index.height, index.tree, lo, hi);
    }
  }

  method ScanTree<K(!new)>(index: BTreeIndex<K>, lo: Bound<K>, hi: Bound<K>, cb: Callback) returns (seen: seq<nat>)
    requires index.Valid() && index.root != 0
    ensures seen == Heard(Handed(index.cmp, index.cap, index.height, index.tree, lo, hi), 0, cb)
  {
    hide TotalOrder, RowsIn, Heard, WentOn, Chain, Sorted, Reached, Ahead, Skipped, Lows, Standing;
    StandingFacts(index.cmp, index.cap, index.height, index.tree, index.pages, End, index.nextPage);
    var leaf, es, link := ReachLeaf(index, lo);
    ghost var rest := Ahead(index.cmp, index.cap, index.height, index.tree, lo);
    TreeParts(index.cmp, index.cap, index.height, index.tree, lo);
    PartsSorted(index.cmp, Skipped(index.cmp, index.cap, index.height, index.tree, lo), es, rest);
    var p := index.pages[leaf];
    var start := 0;
    if lo.Bound? {
      start := FindScanStart(index.cmp, p.entries, lo.key);
      StartIsLows(index.cmp, es, lo.key, start);
    }
    ghost var from := HandedFrom(index.cmp, es, lo);
    NothingSeen(index.cmp, hi, cb);
    assert [] + es[from..] + rest == es[from..] + rest && [] + es[from..] == es[from..];
    var stop;
    seen, stop := ScanEntries(index.cmp, p.entries, start, true, lo, hi, cb, [], [], rest, from);
    if !stop {
      seen := ScanChain(index, p.sibling, lo, hi, cb, seen, es[from..], rest);
    }
  }

  lemma {:induction false} StandingFacts<K>(cmp: Cmp<K>, cap: nat, h: nat, t: Tree<K>, pages: Pages<K>, link: Link, next: nat)
    requires Standing(cmp, cap, h, t, pages, link, next)
    ensures Sound(cap, h, t) && Sorted(cmp, Entries(t))
    ensures t.id in pages && (pages[t.id].NodePage? <==> t.Node?)
    ensures t.Leaf? ==> pages[t.id] == LeafPage(t.entries, link)
  {
  }

  lemma {:induction false} NothingSeen<K>(cmp: Cmp<K>, hi: Bound<K>, cb: Callback)
    ensures WentOn([], cb) && RowsIn(cmp, [], Unbounded, hi) == []
  {
  }

  lemma {:induction false} PartsSorted<K>(cmp: Cmp<K>, a: seq<Entry<K>>, b: seq<Entry<K>>, c: seq<Entry<K>>)
    requires Sorted(cmp, a + b + c)
    ensures Sorted(cmp, b + c) && Sorted(cmp, c) && Sorted(cmp, b)
  {
    assert a + b + c == a + (b + c);
    TailSorted(cmp, a, b + c);
    TailSorted(cmp, b, c);
    assert forall i :: 0 <= i < |b| ==> (b + c)[i] == b[i];
  }

  // ---------------------------------------------------------------- when a scan is exact

  /** The tree seen from the leaf reached: no key before it is above the bound, every key after it is. */
  ghost predicate InParts<K>(cmp: Cmp<K>, cap: nat, h: nat, t: Tree<K>, lo: Bound<K>)
    requires Sound(cap, h, t)
  {
    var a, b, c := Skipped(cmp, cap, h, t, lo), Reached(cmp, cap, h, t, lo), Ahead(cmp, cap, h, t, lo);
    && Entries(t) == a + b + c
    && (lo.Unbounded? ==> a == [])
    && (lo.Bound? ==> AllLe(cmp, a, lo.key) && AllGt(cmp, c, lo.key))
  }

  lemma {:induction false} TreeParts<K(!new)>(cmp: Cmp<K>, cap: nat, h: nat, t: Tree<K>, lo: Bound<K>)
    requires TotalOrder(cmp) && Sound(cap, h, t) && Sorted(cmp, Entries(t))
    ensures InParts(cmp, cap, h, t, lo)
    decreases t
  {
    if t.Leaf? {
      assert [] + t.entries + [] == t.entries;
    } else {
      var s := ScanSlot(cmp, t.keys, lo);
      EntriesAround(t.kids, s);
      ChildParts(cmp, t.kids, s);
      if lo.Bound? {
        AroundSlot(cmp, cap, h, t, lo.key);
      } else {
        assert t.kids[..s] == [];
      }
      hide TotalOrder, Sorted, AllLe, AllGt, Separates, InParts, Skipped, Reached, Ahead, EntriesAll;
      TreeParts(cmp, cap, h - 1, t.kids[s], lo);
      PartsUp(cmp, cap, h, t, lo);
    }
  }

  lemma {:induction false} PartsUp<K>(cmp: Cmp<K>, cap: nat, h: nat, t: Tree<K>, lo: Bound<K>)
    requires Sound(cap, h, t) && t.Node?
    requires var s := ScanSlot(cmp, t.keys, lo);
             && s < |t.kids| && h > 0 && Sound(cap, h - 1, t.kids[s]) && InParts(cmp, cap, h - 1, t.kids[s], lo)
             && (lo.Unbounded? ==> EntriesAll(t.kids[..s]) == [])
             && (lo.Bound? ==> AllLe(cmp, EntriesAll(t.kids[..s]), lo.key) && AllGt(cmp, EntriesAll(t.kids[s + 1..]), lo.key))
    ensures InParts(cmp, cap, h, t, lo)
  {
    hide AllLe, AllGt, Sound, Skipped, Reached, Ahead, Entries, EntriesAll, ScanSlot;
    var s := ScanSlot(cmp, t.keys, lo);
    PartsDown(cmp, cap, h, t, lo);
    var pre, post := EntriesAll(t.kids[..s]), EntriesAll(t.kids[s + 1..]);
    var a, b, c := Skipped(cmp, cap, h - 1, t.kids[s], lo), Reached(cmp, cap, h - 1, t.kids[s], lo), Ahead(cmp, cap, h - 1, t.kids[s], lo);
    Regroup(pre, a, b, c, post);
    if lo.Bound? {
      BothSides(cmp, pre, a, c, post, lo.key);
    }
  }

  lemma {:induction false} PartsDown<K>(cmp: Cmp<K>, cap: nat, h: nat, t: Tree<K>, lo: Bound<K>)
    requires Sound(cap, h, t) && t.Node?
    ensures var s := ScanSlot(cmp, t.keys, lo);
            && s < |t.kids| && h > 0 && Sound(cap, h - 1, t.kids[s])
            && Entries(t) == EntriesAll(t.kids[..s]) + Entries(t.kids[s]) + EntriesAll(t.kids[s + 1..])
            && Skipped(cmp, cap, h, t, lo) == EntriesAll(t.kids[..s]) + Skipped(cmp, cap, h - 1, t.kids[s], lo)
            && Reached(cmp, cap, h, t, lo) == Reached(cmp, cap, h - 1, t.kids[s], lo)
            && Ahead(cmp, cap, h, t, lo) == Ahead(cmp, cap, h - 1, t.kids[s], lo) + EntriesAll(t.kids[s + 1..])
  {
    var s := ScanSlot(cmp, t.keys, lo);
    hide ScanSlot, Separates;
    EntriesAround(t.kids, s);
  }

  lemma {:induction false} BothSides<K>(cmp: Cmp<K>, a: seq<Entry<K>>, b: seq<Entry<K>>, c: seq<Entry<K>>, d: seq<Entry<K>>, k: K)
    requires AllLe(cmp, a, k) && AllLe(cmp, b, k) && AllGt(cmp, c, k) && AllGt(cmp, d, k)
    ensures AllLe(cmp, a + b, k) && AllGt(cmp, c + d, k)
  {
  }

  lemma {:induction false} Regroup<K>(pre: seq<Entry<K>>, a: seq<Entry<K>>, b: seq<Entry<K>>, c: seq<Entry<K>>, rest: seq<Entry<K>>)
    ensures pre + (a + b + c) + rest == (pre + a) + b + (c + rest)
  {
  }

  /** An entry equal to the bound, and below the upper one. */
  ghost predicate AtBound<K>(cmp: Cmp<K>, e: Entry<K>, lo: Bound<K>, hi: Bound<K>) {
    lo.Bound? && cmp(e.key, lo.key) == 0 && BelowHi(cmp, hi, e.key)
  }

  /** Some of the entries belong to the range, but are equal to its inclusive bound and passed over. */
  ghost predicate Loses<K>(cmp: Cmp<K>, skipped: seq<Entry<K>>, lo: Bound<K>, hi: Bound<K>) {
    exists i :: 0 <= i < |skipped| && AtBound(cmp, skipped[i], lo, hi)
  }

  /** Two entries of one leaf equal an exclusive bound: the second is handed on although it is outside. */
  ghost predicate Repeats<K>(cmp: Cmp<K>, es: seq<Entry<K>>, lo: Bound<K>, hi: Bound<K>) {
    exists i, j :: 0 <= i < j < |es| && AtBound(cmp, es[i], lo, hi) && AtBound(cmp, es[j], lo, hi)
  }

  ghost predicate ScanIsExact<K>(cmp: Cmp<K>, cap: nat, h: nat, t: Tree<K>, lo: Bound<K>, hi: Bound<K>)
    requires Sound(cap, h, t)
  {
    lo.Bound? ==>
      if lo.incl then !Loses(cmp, Skipped(cmp, cap, h, t, lo), lo, hi)
      else !Repeats(cmp, Reached(cmp, cap, h, t, lo), lo, hi)
  }

  /** Without the lower bound more rows are inside, unless no entry below it is within the upper one. */
  lemma {:induction false} WiderIff<K>(cmp: Cmp<K>, es: seq<Entry<K>>, lo: Bound<K>, hi: Bound<K>)
    ensures |RowsIn(cmp, es, lo, hi)| <= |RowsIn(cmp, es, Unbounded, hi)|
    ensures |RowsIn(cmp, es, lo, hi)| == |RowsIn(cmp, es, Unbounded, hi)| <==>
              forall i :: 0 <= i < |es| && BelowHi(cmp, hi, es[i].key) ==> AboveLo(cmp, lo, es[i].key)
    ensures |RowsIn(cmp, es, lo, hi)| == |RowsIn(cmp, es, Unbounded, hi)| ==>
              RowsIn(cmp, es, lo, hi) == RowsIn(cmp, es, Unbounded, hi)
  {
    hide BelowHi;
    if es != [] {
      WiderIff(cmp, es[1..], lo, hi);
      assert forall i :: 0 < i < |es| ==> es[i] == es[1..][i - 1];
    }
  }

  /** Rows are inside unless no entry is. */
  lemma {:induction false} NoneInside<K>(cmp: Cmp<K>, es: seq<Entry<K>>, lo: Bound<K>, hi: Bound<K>)
    requires lo.Bound? && lo.incl && AllLe(cmp, es, lo.key)
    ensures RowsIn(cmp, es, lo, hi) == [] <==> !Loses(cmp, es, lo, hi)
  {
    if es != [] {
      NoneInside(cmp, es[1..], lo, hi);
      assert forall i :: 0 < i < |es| ==> es[i] == es[1..][i - 1];
      if Loses(cmp, es[1..], lo, hi) {
        var i :| 0 <= i < |es[1..]| && AtBound(cmp, es[1..][i], lo, hi);
        assert AtBound(cmp, es[i + 1], lo, hi);
      }
      if Loses(cmp, es, lo, hi) && !AtBound(cmp, es[0], lo, hi) {
        var i :| 0 <= i < |es| && AtBound(cmp, es[i], lo, hi);
        assert AtBound(cmp, es[1..][i - 1], lo, hi);
      }
    }
  }

  /** What the leaf hands on, with the entries before that left out. */
  lemma {:induction false} LeafHanded<K>(cmp: Cmp<K>, es: seq<Entry<K>>, lo: Bound<K>, hi: Bound<K>)
    ensures RowsIn(cmp, es, lo, hi) == RowsIn(cmp, es[HandedFrom(cmp, es, lo)..], lo, hi)
  {
    var n := HandedFrom(cmp, es, lo);
    assert es[..n] + es[n..] == es;
    RowsInNone(cmp, es[..n], lo, hi);
    RowsInConcat(cmp, es[..n], es[n..], lo, hi);
  }

  /** From the first entry not below the bound on, all are at or above it. */
  lemma {:induction false} HandedAtLeast<K(!new)>(cmp: Cmp<K>, es: seq<Entry<K>>, lo: Bound<K>, i: nat)
    requires TotalOrder(cmp) && Sorted(cmp, es) && lo.Bound? && Lows(cmp, es, lo.key) <= i < |es|
    ensures cmp(es[i].key, lo.key) >= 0
  {
    var n := Lows(cmp, es, lo.key);
    var x, y, k := es[n].key, es[i].key, lo.key;
    assert cmp(x, y) <= 0 || i == n;
    BelowBoth(cmp, x, y, k);
  }

  /** An inclusive bound: the leaf hands on what is inside. */
  lemma {:induction false} InclusiveLeaf<K(!new)>(cmp: Cmp<K>, es: seq<Entry<K>>, lo: Bound<K>, hi: Bound<K>)
    requires TotalOrder(cmp) && Sorted(cmp, es) && (lo.Bound? ==> lo.incl)
    ensures RowsIn(cmp, es, lo, hi) == RowsIn(cmp, es[HandedFrom(cmp, es, lo)..], Unbounded, hi)
  {
    LeafHanded(cmp, es, lo, hi);
    var n := HandedFrom(cmp, es, lo);
    forall i | 0 <= i < |es[n..]|
      ensures AboveLo(cmp, lo, es[n..][i].key)
    {
      if lo.Bound? {
        HandedAtLeast(cmp, es, lo, n + i);
      }
    }
    WiderIff(cmp, es[n..], lo, hi);
  }

  /** An exclusive bound: the leaf hands on what is inside, unless an equal key is repeated. */
  lemma {:induction false} ExclusiveLeaf<K(!new)>(cmp: Cmp<K>, es: seq<Entry<K>>, lo: Bound<K>, hi: Bound<K>)
    requires TotalOrder(cmp) && Sorted(cmp, es) && lo.Bound? && !lo.incl
    ensures var handed := es[HandedFrom(cmp, es, lo)..];
            && |RowsIn(cmp, es, lo, hi)| <= |RowsIn(cmp, handed, Unbounded, hi)|
            && (|RowsIn(cmp, es, lo, hi)| == |RowsIn(cmp, handed, Unbounded, hi)| <==> !Repeats(cmp, es, lo, hi))
            && (!Repeats(cmp, es, lo, hi) ==> RowsIn(cmp, es, lo, hi) == RowsIn(cmp, handed, Unbounded, hi))
  {
    var n := HandedFrom(cmp, es, lo);
    LeafHanded(cmp, es, lo, hi);
    WiderIff(cmp, es[n..], lo, hi);
    RepeatsIff(cmp, es, lo, hi);
  }

  lemma {:induction false} RepeatsIff<K(!new)>(cmp: Cmp<K>, es: seq<Entry<K>>, lo: Bound<K>, hi: Bound<K>)
    requires TotalOrder(cmp) && Sorted(cmp, es) && lo.Bound? && !lo.incl
    ensures var handed := es[HandedFrom(cmp, es, lo)..];
            Repeats(cmp, es, lo, hi) <==>
              exists i :: 0 <= i < |handed| && BelowHi(cmp, hi, handed[i].key) && !AboveLo(cmp, lo, handed[i].key)
  {
    var n := HandedFrom(cmp, es, lo);
    var handed := es[n..];
    if i :| 0 <= i < |handed| && BelowHi(cmp, hi, handed[i].key) && !AboveLo(cmp, lo, handed[i].key) {
      HandedTwice(cmp, es, lo, hi, n + i);
    }
    if Repeats(cmp, es, lo, hi) {
      var i, j :| 0 <= i < j < |es| && AtBound(cmp, es[i], lo, hi) && AtBound(cmp, es[j], lo, hi);
      assert n <= j;
      assert handed[j - n] == es[j];
    }
  }

  /** An entry that is handed on from outside follows an equal one that is left out. */
  lemma {:induction false} HandedTwice<K(!new)>(cmp: Cmp<K>, es: seq<Entry<K>>, lo: Bound<K>, hi: Bound<K>, j: nat)
    requires TotalOrder(cmp) && Sorted(cmp, es) && lo.Bound? && !lo.incl
    requires HandedFrom(cmp, es, lo) <= j < |es| && BelowHi(cmp, hi, es[j].key) && !AboveLo(cmp, lo, es[j].key)
    ensures Repeats(cmp, es, lo, hi)
  {
    var m := Lows(cmp, es, lo.key);
    HandedAtLeast(cmp, es, lo, j);
    HandedAtLeast(cmp, es, lo, m);
    SandwichedEqual(cmp, es, lo, hi, m, j);
    assert m < j;
    assert AtBound(cmp, es[m], lo, hi) && AtBound(cmp, es[j], lo, hi);
  }

  /** Between the first entry not below the bound and an equal one, all are equal. */
  lemma {:induction false} SandwichedEqual<K(!new)>(cmp: Cmp<K>, es: seq<Entry<K>>, lo: Bound<K>, hi: Bound<K>, m: nat, j: nat)
    requires TotalOrder(cmp) && Sorted(cmp, es) && m <= j < |es| && lo.Bound?
    requires cmp(es[m].key, lo.key) >= 0 && AtBound(cmp, es[j], lo, hi)
    ensures AtBound(cmp, es[m], lo, hi)
  {
    var x, y, k := es[m].key, es[j].key, lo.key;
    if m < j {
      assert cmp(x, y) <= 0;
      assert cmp(x, k) <= 0;
      if hi.Bound? {
        BelowBoth(cmp, x, y, hi.key);
        assert cmp(y, hi.key) <= 0 ==> cmp(x, hi.key) <= 0;
      }
    }
  }

  /** What is inside the bounds, part by part. */
  lemma {:induction false} InsideParts<K(!new)>(cmp: Cmp<K>, a: seq<Entry<K>>, b: seq<Entry<K>>, c: seq<Entry<K>>, lo: Bound<K>, hi: Bound<K>)
    requires lo.Bound? ==> AllGt(cmp, c, lo.key)
    ensures RowsIn(cmp, a + b + c, lo, hi) == RowsIn(cmp, a, lo, hi) + RowsIn(cmp, b, lo, hi) + RowsIn(cmp, c, Unbounded, hi)
  {
    RowsInConcat(cmp, a + b, c, lo, hi);
    RowsInConcat(cmp, a, b, lo, hi);
    WiderIff(cmp, c, lo, hi);
  }

  lemma {:induction false} SameTail(a: seq<nat>, b: seq<nat>, c: seq<nat>)
    ensures a + c == b + c <==> a == b
  {
    if a + c == b + c {
      assert |a| == |b|;
      assert a == (a + c)[..|a|] && b == (b + c)[..|b|];
    }
  }

  lemma {:induction false} SameRest(a: seq<nat>, b: seq<nat>, c: seq<nat>)
    ensures a + b + c == b + c <==> a == []
  {
    if a + b + c == b + c {
      assert |a| + |b| + |c| == |b| + |c|;
    }
  }

  /** The rows handed on are those inside the bounds exactly if no equal key is passed over, or handed on twice. */
  lemma {:induction false} HandedIff<K(!new)>(cmp: Cmp<K>, cap: nat, h: nat, t: Tree<K>, lo: Bound<K>, hi: Bound<K>)
    requires TotalOrder(cmp) && Sound(cap, h, t) && Sorted(cmp, Entries(t))
    ensures Handed(cmp, cap, h, t, lo, hi) == RowsIn(cmp, Entries(t), lo, hi) <==> ScanIsExact(cmp, cap, h, t, lo, hi)
  {
    hide TotalOrder, RowsIn, Sorted, Reached, Ahead, Skipped, Lows, HandedFrom, Entries, Sound, Loses, Repeats;
    var a, b, c := Skipped(cmp, cap, h, t, lo), Reached(cmp, cap, h, t, lo), Ahead(cmp, cap, h, t, lo);
    TreeParts(cmp, cap, h, t, lo);
    PartsSorted(cmp, a, b, c);
    InsideParts(cmp, a, b, c, lo, hi);
    var handed := b[HandedFrom(cmp, b, lo)..];
    var x, y, z, w := RowsIn(cmp, a, lo, hi), RowsIn(cmp, b, lo, hi), RowsIn(cmp, c, Unbounded, hi), RowsIn(cmp, handed, Unbounded, hi);
    RowsInConcat(cmp, handed, c, Unbounded, hi);
    if lo.Unbounded? || lo.incl {
      InclusiveLeaf(cmp, b, lo, hi);
      SameRest(x, y, z);
      if lo.Bound? {
        NoneInside(cmp, a, lo, hi);
      } else {
        RowsInNone(cmp, a, lo, hi);
      }
    } else {
      RowsInNone(cmp, a, lo, hi);
      assert x + y == y;
      ExclusiveLeaf(cmp, b, lo, hi);
      SameTail(w, y, z);
    }
  }

  /** Every callback hears the rows inside the bounds if and only if the scan is exact. */
  lemma {:induction false} ScanExactIff<K(!new)>(cmp: Cmp<K>, cap: nat, h: nat, t: Tree<K>, lo: Bound<K>, hi: Bound<K>)
    requires TotalOrder(cmp) && Sound(cap, h, t) && Sorted(cmp, Entries(t))
    ensures (forall cb: Callback :: Heard(Handed(cmp, cap, h, t, lo, hi), 0, cb) == Heard(RowsIn(cmp, Entries(t), lo, hi), 0, cb))
            <==> ScanIsExact(cmp, cap, h, t, lo, hi)
  {
    hide TotalOrder, RowsIn, Sorted, Handed, Sound, Entries, ScanIsExact;
    HandedIff(cmp, cap, h, t, lo, hi);
    var on: Callback := _ => true;
    HeardAll(Handed(cmp, cap, h, t, lo, hi), on);
    HeardAll(RowsIn(cmp, Entries(t), lo, hi), on);
  }

  /** No two entries share the key of the lower bound: true of distinct keys, and of any keys without a lower bound. */
  ghost predicate AtMostOne<K>(cmp: Cmp<K>, es: seq<Entry<K>>, lo: Bound<K>) {
    lo.Bound? ==> forall i, j :: 0 <= i < j < |es| ==> cmp(es[i].key, lo.key) != 0 || cmp(es[j].key, lo.key) != 0
  }

  /** An equal entry that is passed over has an equal one after it, in the leaf reached or before. */
  lemma {:induction false} LostHasTwin<K(!new)>(cmp: Cmp<K>, cap: nat, h: nat, t: Tree<K>, lo: Bound<K>, i: nat)
    requires TotalOrder(cmp) && Sound(cap, h, t) && Sorted(cmp, Entries(t)) && lo.Bound?
    requires i < |Skipped(cmp, cap, h, t, lo)| && cmp(Skipped(cmp, cap, h, t, lo)[i].key, lo.key) == 0
    ensures !AtMostOne(cmp, Entries(t), lo)
    decreases t
  {
    var s := ScanSlot(cmp, t.keys, lo);
    var a, b, c := EntriesAll(t.kids[..s]), Entries(t.kids[s]), EntriesAll(t.kids[s + 1..]);
    EntriesAround(t.kids, s);
    ChildParts(cmp, t.kids, s);
    AroundSlot(cmp, cap, h, t, lo.key);
    assert Entries(t) == a + b + c;
    hide TotalOrder, Sorted, AtMostOne, AllLe, AllGt;
    if i < |a| {
      assert t.kids[..0] == [];
      TwinAt(cmp, a, b, c, lo, i);
    } else {
      LostHasTwin(cmp, cap, h - 1, t.kids[s], lo, i - |a|);
      TwinsInside(cmp, a, b, c, lo);
    }
  }

  lemma {:induction false} TwinsInside<K>(cmp: Cmp<K>, a: seq<Entry<K>>, b: seq<Entry<K>>, c: seq<Entry<K>>, lo: Bound<K>)
    requires lo.Bound? && !AtMostOne(cmp, b, lo)
    ensures !AtMostOne(cmp, a + b + c, lo)
  {
    var x, y :| 0 <= x < y < |b| && cmp(b[x].key, lo.key) == 0 && cmp(b[y].key, lo.key) == 0;
    assert (a + b + c)[|a| + x] == b[x] && (a + b + c)[|a| + y] == b[y];
  }

  lemma {:induction false} TwinAt<K(!new)>(cmp: Cmp<K>, a: seq<Entry<K>>, b: seq<Entry<K>>, c: seq<Entry<K>>, lo: Bound<K>, i: nat)
    requires TotalOrder(cmp) && lo.Bound? && Sorted(cmp, a + b + c) && i < |a| && cmp(a[i].key, lo.key) == 0
    requires b != [] && cmp(b[0].key, lo.key) <= 0
    ensures !AtMostOne(cmp, a + b + c, lo)
  {
    var all := a + b + c;
    var x, y, k := a[i].key, b[0].key, lo.key;
    assert all[i] == a[i] && all[|a|] == b[0];
    assert cmp(x, y) <= 0;
    assert cmp(x, k) < 0 <==> cmp(k, x) > 0;
    assert cmp(y, k) < 0 <==> cmp(k, y) > 0;
    assert cmp(k, x) <= 0 ==> cmp(k, y) <= 0;
  }

  /** With at most one entry at the bound a scan is exact, wherever that entry lies. */
  lemma {:induction false} DistinctExact<K(!new)>(cmp: Cmp<K>, cap: nat, h: nat, t: Tree<K>, lo: Bound<K>, hi: Bound<K>)
    requires TotalOrder(cmp) && Sound(cap, h, t) && Sorted(cmp, Entries(t)) && AtMostOne(cmp, Entries(t), lo)
    ensures Handed(cmp, cap, h, t, lo, hi) == RowsIn(cmp, Entries(t), lo, hi)
  {
    HandedIff(cmp, cap, h, t, lo, hi);
    var a, b, c := Skipped(cmp, cap, h, t, lo), Reached(cmp, cap, h, t, lo), Ahead(cmp, cap, h, t, lo);
    TreeParts(cmp, cap, h, t, lo);
    hide *;
    if lo.Bound? {
      if Loses(cmp, a, lo, hi) {
        LosesTwin(cmp, cap, h, t, lo, hi);
      }
      if Repeats(cmp, b, lo, hi) {
        RepeatsTwin(cmp, b, lo, hi);
        TwinsInside(cmp, a, b, c, lo);
      }
    }
    NeitherIsExact(cmp, cap, h, t, lo, hi);
  }

  lemma {:induction false} NeitherIsExact<K>(cmp: Cmp<K>, cap: nat, h: nat, t: Tree<K>, lo: Bound<K>, hi: Bound<K>)
    requires Sound(cap, h, t)
    ensures !Loses(cmp, Skipped(cmp, cap, h, t, lo), lo, hi) && !Repeats(cmp, Reached(cmp, cap, h, t, lo), lo, hi)
            ==> ScanIsExact(cmp, cap, h, t, lo, hi)
    ensures lo.Unbounded? ==> ScanIsExact(cmp, cap, h, t, lo, hi)
  {
  }

  lemma {:induction false} LosesTwin<K(!new)>(cmp: Cmp<K>, cap: nat, h: nat, t: Tree<K>, lo: Bound<K>, hi: Bound<K>)
    requires TotalOrder(cmp) && Sound(cap, h, t) && Sorted(cmp, Entries(t)) && lo.Bound?
    requires Loses(cmp, Skipped(cmp, cap, h, t, lo), lo, hi)
    ensures !AtMostOne(cmp, Entries(t), lo)
  {
    hide TotalOrder, Sorted, Skipped, AtMostOne, Sound, Entries;
    var a := Skipped(cmp, cap, h, t, lo);
    var i :| 0 <= i < |a| && AtBound(cmp, a[i], lo, hi);
    LostHasTwin(cmp, cap, h, t, lo, i);
  }

  lemma {:induction false} RepeatsTwin<K>(cmp: Cmp<K>, es: seq<Entry<K>>, lo: Bound<K>, hi: Bound<K>)
    requires lo.Bound? && Repeats(cmp, es, lo, hi)
    ensures !AtMostOne(cmp, es, lo)
  {
    var i, j :| 0 <= i < j < |es| && AtBound(cmp, es[i], lo, hi) && AtBound(cmp, es[j], lo, hi);
  }

  // ---------------------------------------------------------------- the scans that fail

  function ByNumber(a: int, b: int): int {
    a - b
  }

  lemma {:induction false} NumbersOrdered()
    ensures TotalOrder(ByNumber)
  {
  }

  function TwoLeaves(): Tree<int> {
    Node(3, [5], [Leaf(1, [Entry(5, 0)]), Leaf(2, [Entry(5, 1)])])
  }

  lemma {:induction false} TwoLeavesSound()
    ensures Sound(1, 1, TwoLeaves()) && Entries(TwoLeaves()) == [Entry(5, 0), Entry(5, 1)]
  {
    Pair(Leaf(1, [Entry(5, 0)]), Leaf(2, [Entry(5, 1)]));
  }

  lemma {:induction false} SecondVisited()
    requires Sound(1, 1, TwoLeaves())
    ensures Visited(ByNumber, 1, 1, TwoLeaves(), Bound(5, true)) == [Entry(5, 1)]
  {
    var lo, r := Bound(5, true), Leaf(2, [Entry(5, 1)]);
    assert Slot(ByNumber, [5], 5) == 1;
    SpecDown(ByNumber, 1, 1, TwoLeaves(), lo, []);
    LeafReached(ByNumber, 1, 0, r, lo, []);
    hide Reached, Ahead, Sound;
    assert TwoLeaves().kids[2..] == [];
    assert HandedFrom(ByNumber, [Entry(5, 1)], lo) == 0;
    var es := [Entry(5, 1)];
    assert es[0..] == es;
  }

  /** Inserting two equal keys makes these leaves. */
  lemma {:induction false} TwoLeavesArise()
    ensures var l, r := TwoLeaves().kids[0], TwoLeaves().kids[1];
            InsertTree(ByNumber, 1, 0, l, Entry(5, 1), 2).0 == Two(l, 5, r)
  {
    TwoFives(TwoLeaves().kids[0], TwoLeaves().kids[1]);
    hide InsertLeaf;
  }

  /** Two equal keys in two leaves: a scan for exactly that key calls back the second row only. */
  lemma {:induction false} DuplicateLost()
    ensures TotalOrder(ByNumber) && Sound(1, 1, TwoLeaves())
    ensures Handed(ByNumber, 1, 1, TwoLeaves(), Bound(5, true), Bound(5, true)) == [1]
    ensures RowsIn(ByNumber, Entries(TwoLeaves()), Bound(5, true), Bound(5, true)) == [0, 1]
  {
    var lo := Bound(5, true);
    NumbersOrdered();
    TwoLeavesSound();
    hide Visited, Reached, Ahead, RowsIn, Sound, Entries, TwoLeaves, TotalOrder;
    SecondVisited();
    OneRow(Entry(5, 1), Unbounded, lo);
    OneRow(Entry(5, 0), lo, lo);
    OneRow(Entry(5, 1), lo, lo);
    RowsInConcat(ByNumber, [Entry(5, 0)], [Entry(5, 1)], lo, lo);
    assert [Entry(5, 0)] + [Entry(5, 1)] == [Entry(5, 0), Entry(5, 1)];
  }

  lemma {:induction false} OneRow(e: Entry<int>, lo: Bound<int>, hi: Bound<int>)
    ensures RowsIn(ByNumber, [e], lo, hi) == if AboveLo(ByNumber, lo, e.key) && BelowHi(ByNumber, hi, e.key) then [e.row] else []
  {
    RowsInNext(ByNumber, [], e, lo, hi);
    assert [] + [e] == [e];
  }

  lemma {:induction false} ThreeRows(a: Entry<int>, b: Entry<int>, c: Entry<int>, lo: Bound<int>, hi: Bound<int>)
    ensures RowsIn(ByNumber, [a, b, c], lo, hi) == RowsIn(ByNumber, [a], lo, hi) + RowsIn(ByNumber, [b, c], lo, hi)
    ensures RowsIn(ByNumber, [b, c], lo, hi) == RowsIn(ByNumber, [b], lo, hi) + RowsIn(ByNumber, [c], lo, hi)
  {
    hide RowsIn;
    assert [a, b, c] == [a] + [b, c] && [b, c] == [b] + [c];
    RowsInConcat(ByNumber, [a], [b, c], lo, hi);
    RowsInConcat(ByNumber, [b], [c], lo, hi);
  }

  function OneLeaf(): Tree<int> {
    Leaf(1, [Entry(5, 0), Entry(5, 1), Entry(6, 2)])
  }

  lemma {:induction false} LaterVisited()
    ensures Sound(3, 0, OneLeaf())
    ensures Visited(ByNumber, 3, 0, OneLeaf(), Bound(5, false)) == [Entry(5, 1), Entry(6, 2)]
  {
    var es := OneLeaf().entries;
    assert Lows(ByNumber, es, 5) == 0 && HandedFrom(ByNumber, es, Bound(5, false)) == 1;
  }

  /** Two equal keys in one leaf: a scan of what is above them calls back the second of them. */
  lemma {:induction false} RepeatHeard()
    ensures TotalOrder(ByNumber) && Sound(3, 0, OneLeaf()) && Sorted(ByNumber, Entries(OneLeaf()))
    ensures Handed(ByNumber, 3, 0, OneLeaf(), Bound(5, false), Unbounded) == [1, 2]
    ensures RowsIn(ByNumber, Entries(OneLeaf()), Bound(5, false), Unbounded) == [2]
  {
    var lo, hi := Bound(5, false), Unbounded;
    NumbersOrdered();
    LaterVisited();
    hide Visited, RowsIn, TotalOrder;
    ThreeRows(Entry(5, 0), Entry(5, 1), Entry(6, 2), hi, hi);
    ThreeRows(Entry(5, 0), Entry(5, 1), Entry(6, 2), lo, hi);
    OneRow(Entry(5, 1), hi, hi);
    OneRow(Entry(6, 2), hi, hi);
    OneRow(Entry(5, 0), lo, hi);
    OneRow(Entry(5, 1), lo, hi);
    OneRow(Entry(6, 2), lo, hi);
  }

  lemma TwoFives(l: Tree<int>, r: Tree<int>)
    requires l == Leaf(1, [Entry(5, 0)]) && r == Leaf(2, [Entry(5, 1)])
    ensures InsertLeaf(ByNumber, 1, l, Entry(5, 1), 2).0 == Two(l, 5, r)
  {
    assert Slot(ByNumber, KeysOf(l.entries), 5) == 1;
    var es := Splice(l.entries, 1, [Entry(5, 1)], 0);
    assert es == [Entry(5, 0), Entry(5, 1)];
    assert es[..1] == l.entries && es[1..] == r.entries;
  }

  lemma {:induction false} Pair<K>(l: Tree<K>, r: Tree<K>)
    ensures EntriesAll([l]) == Entries(l) && EntriesAll([l, r]) == Entries(l) + Entries(r)
  {
    assert [l, r][1..] == [r] && [r][1..] == [] && [l][1..] == [];
    assert EntriesAll([r]) == Entries(r) + EntriesAll([]);
    assert EntriesAll([l]) == Entries(l) + EntriesAll([]);
  }
}
