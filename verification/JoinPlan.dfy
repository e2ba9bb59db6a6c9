/** How a SELECT over several tables is planned as a tree of hash joins. */
module JoinPlanning {
  import opened Options
  import opened Bytes
  import opened Values
  import opened JoinSpec
  import HashJoining

  /** A bound ON expression, as far as the planner looks into it. */
  datatype OnExpr =
    | ColumnRef(bid: nat, col: nat)
    | Binary(isEq: bool, left: OnExpr, right: OnExpr)
    | Logical(isAnd: bool, left: OnExpr, right: OnExpr)
    | OtherExpr

  datatype Table = Table(rows: seq<Row>, count: nat)

  datatype Binding = Binding(table: Name, width: nat)

  datatype Plan =
    | Scan(bid: nat)
    | Join(build: Plan, probe: Plan, buildKeys: seq<nat>, probeKeys: seq<nat>)

  datatype KeyVecs = KeyVecs(probe: seq<nat>, build: seq<nat>)

  /** One row of each table, in binding order. */
  type Tuple = seq<Row>

  // ---- what a query means ----

  function ValueAt(u: Tuple, bid: nat, col: nat): Value {
    if bid < |u| && col < |u[bid]| then u[bid][col] else Null
  }

  /** A conjunction of column equalities holds, NULL being equal to nothing. */
  predicate HoldsOn(on: OnExpr, u: Tuple) {
    match on
    case Logical(true, l, r) => HoldsOn(l, u) && HoldsOn(r, u)
    case Binary(true, ColumnRef(b, c), ColumnRef(d, e)) =>
      ValueAt(u, b, c) == ValueAt(u, d, e) && !ValueAt(u, b, c).Null?
    case _ => false
  }

  /** `mk(a, b)` for all pairs that `keep` admits, `as` outermost. */
  function Weave<A, B>(xs: seq<A>, bs: seq<B>, keep: (A, B) -> bool, mk: (A, B) -> Tuple): seq<Tuple> {
    if xs == [] then []
    else Weave(xs[..|xs| - 1], bs, keep, mk) + WeaveRow(xs[|xs| - 1], bs, keep, mk)
  }

  function WeaveRow<A, B>(a: A, bs: seq<B>, keep: (A, B) -> bool, mk: (A, B) -> Tuple): seq<Tuple> {
    if bs == [] then []
    else
      var b := bs[|bs| - 1];
      WeaveRow(a, bs[..|bs| - 1], keep, mk) + if keep(a, b) then [mk(a, b)] else []
  }

  function Snoc(t: Tuple, r: Row): Tuple {
    t + [r]
  }

  function Single(rows: seq<Row>): (ts: seq<Tuple>)
    ensures |ts| == |rows| && forall i :: 0 <= i < |rows| ==> ts[i] == [rows[i]]
  {
    seq(|rows|, i requires 0 <= i < |rows| => [rows[i]])
  }

  /** The cross product. */
  function Product(tables: seq<seq<Row>>): seq<Tuple>
    requires tables != []
  {
    var n := |tables| - 1;
    if n == 0 then Single(tables[0])
    else Weave(Product(tables[..n]), tables[n], (t, r) => true, Snoc)
  }

  predicate AllOn(ons: seq<OnExpr>, u: Tuple) {
    forall i :: 0 <= i < |ons| ==> HoldsOn(ons[i], u)
  }

  function Satisfying(ts: seq<Tuple>, ons: seq<OnExpr>): seq<Tuple> {
    if ts == [] then []
    else Satisfying(ts[..|ts| - 1], ons) + if AllOn(ons, ts[|ts| - 1]) then [ts[|ts| - 1]] else []
  }

  // ---- planning ----

  /** The key columns of an ON clause; none if it is not a conjunction of equalities with the build side. */
  function DecomposeOn(on: OnExpr, offsets: seq<nat>, buildBid: nat): (r: Option<KeyVecs>)
    ensures r.Some? <==> Splits(on, |offsets|, buildBid)
    ensures r.Some? ==> |r.value.probe| == |r.value.build| > 0
  {
    match on
    case Logical(true, l, r) =>
      var lr := DecomposeOn(l, offsets, buildBid);
      var rr := DecomposeOn(r, offsets, buildBid);
      if lr.None? || rr.None? then None
      else Some(KeyVecs(lr.value.probe + rr.value.probe, lr.value.build + rr.value.build))
    case Binary(true, ColumnRef(b, c), ColumnRef(d, e)) =>
      if b == buildBid && d != buildBid && d < |offsets| then Some(KeyVecs([offsets[d] + e], [c]))
      else if d == buildBid && b != buildBid && b < |offsets| then Some(KeyVecs([offsets[b] + c], [e]))
      else None
    case _ => None
  }

  /** Every conjunct equates a column of binding `bid` with a column of another. */
  predicate Splits(on: OnExpr, n: nat, bid: nat) {
    match on
    case Logical(true, l, r) => Splits(l, n, bid) && Splits(r, n, bid)
    case Binary(true, ColumnRef(b, c), ColumnRef(d, e)) =>
      (b == bid && d != bid && d < n) || (d == bid && b != bid && b < n)
    case _ => false
  }

  /** Every column named is a column of one of the first `n` bindings. */
  predicate Within(on: OnExpr, widths: seq<nat>, n: nat) {
    match on
    case ColumnRef(b, c) => b < n && b < |widths| && c < widths[b]
    case Binary(_, l, r) => Within(l, widths, n) && Within(r, widths, n)
    case Logical(_, l, r) => Within(l, widths, n) && Within(r, widths, n)
    case OtherExpr => true
  }

  function Pick(cols: seq<nat>, row: Row): (k: Key)
    ensures |k| == |cols|
    ensures forall i :: 0 <= i < |cols| ==> k[i] == if cols[i] < |row| then row[cols[i]] else Null
  {
    seq(|cols|, i requires 0 <= i < |cols| => if cols[i] < |row| then row[cols[i]] else Null)
  }

  function KeysOf(buildKeys: seq<nat>, probeKeys: seq<nat>): Keys {
    Keys(r => Pick(probeKeys, r), r => Pick(buildKeys, r), 0)
  }

  /** What the operator tree emits, each join being an inner hash join. */
  function Eval(p: Plan, tables: seq<seq<Row>>): seq<Row> {
    match p
    case Scan(b) => if b < |tables| then tables[b] else []
    case Join(b, q, bk, pk) => NestedLoop(Inner, KeysOf(bk, pk), Eval(q, tables), Eval(b, tables))
  }

  /** A row of the operator tree read through the column offsets of the bindings. */
  function ReadRow(offsets: seq<nat>, widths: seq<nat>, row: Row): (u: Tuple)
    requires |offsets| == |widths|
    ensures |u| == |offsets|
  {
    seq(|offsets|, i requires 0 <= i < |offsets| =>
      if offsets[i] + widths[i] <= |row| then row[offsets[i]..offsets[i] + widths[i]] else [])
  }

  function ReadRows(offsets: seq<nat>, widths: seq<nat>, rows: seq<Row>): (us: seq<Tuple>)
    requires |offsets| == |widths|
    ensures |us| == |rows| && forall i :: 0 <= i < |rows| ==> us[i] == ReadRow(offsets, widths, rows[i])
  {
    seq(|rows|, i requires 0 <= i < |rows| => ReadRow(offsets, widths, rows[i]))
  }

  // ---- counting ----

  /** `mk` is one-to-one onto `dom`, with inverses `fst` and `snd`. */
  ghost predicate Invertible<A(!new), B(!new)>(mk: (A, B) -> Tuple, dom: Tuple -> bool, fst: Tuple -> A, snd: Tuple -> B) {
    forall a, b, u :: mk(a, b) == u <==> dom(u) && fst(u) == a && snd(u) == b
  }

  lemma {:induction false} WeaveRowCount<A(!new), B(!new)>(
      a: A, bs: seq<B>, keep: (A, B) -> bool, mk: (A, B) -> Tuple,
      dom: Tuple -> bool, fst: Tuple -> A, snd: Tuple -> B, u: Tuple)
    requires Invertible(mk, dom, fst, snd)
    ensures multiset(WeaveRow(a, bs, keep, mk))[u]
         == if dom(u) && fst(u) == a && keep(a, snd(u)) then multiset(bs)[snd(u)] else 0
  {
    if bs != [] {
      var n := |bs| - 1;
      assert bs == bs[..n] + [bs[n]];
      WeaveRowCount(a, bs[..n], keep, mk, dom, fst, snd, u);
      assert mk(a, bs[n]) == u <==> dom(u) && fst(u) == a && snd(u) == bs[n];
    }
  }

  lemma {:induction false} WeaveCount<A(!new), B(!new)>(
      xs: seq<A>, bs: seq<B>, keep: (A, B) -> bool, mk: (A, B) -> Tuple,
      dom: Tuple -> bool, fst: Tuple -> A, snd: Tuple -> B, u: Tuple)
    requires Invertible(mk, dom, fst, snd)
    ensures multiset(Weave(xs, bs, keep, mk))[u]
         == if dom(u) && keep(fst(u), snd(u)) then multiset(xs)[fst(u)] * multiset(bs)[snd(u)] else 0
  {
    if xs != [] {
      var n := |xs| - 1;
      assert xs == xs[..n] + [xs[n]];
      WeaveCount(xs[..n], bs, keep, mk, dom, fst, snd, u);
      WeaveRowCount(xs[n], bs, keep, mk, dom, fst, snd, u);
      var c, k := multiset(xs[..n])[fst(u)], multiset(bs)[snd(u)];
      hide Weave, WeaveRow;
      CountSnoc(xs[..n], xs[n], fst(u), k);
    }
  }

  lemma {:induction false} CountSnoc<A>(xs: seq<A>, x: A, y: A, k: nat)
    ensures multiset(xs + [x])[y] * k == multiset(xs)[y] * k + if x == y then k else 0
  {
    var c := multiset(xs)[y];
    assert multiset(xs + [x])[y] == c + if x == y then 1 else 0;
    assert (c + 1) * k == c * k + k;
  }

  lemma {:induction false} SatisfyingCount(ts: seq<Tuple>, ons: seq<OnExpr>, u: Tuple)
    ensures multiset(Satisfying(ts, ons))[u] == if AllOn(ons, u) then multiset(ts)[u] else 0
  {
    if ts != [] {
      var n := |ts| - 1;
      assert ts == ts[..n] + [ts[n]];
      SatisfyingCount(ts[..n], ons, u);
    }
  }

  // ---- the join tree, binding by binding ----

  /** Tuples of the first bindings extended by the rows of the next one that meet `on`. */
  function Extend(ts: seq<Tuple>, table: seq<Row>, on: OnExpr): seq<Tuple> {
    Weave(ts, table, (t, r) => HoldsOn(on, t + [r]), Snoc)
  }

  function Tuples(tables: seq<seq<Row>>, ons: seq<OnExpr>): seq<Tuple>
    requires tables != [] && |ons| == |tables| - 1
  {
    var n := |tables| - 1;
    if n == 0 then Single(tables[0])
    else Extend(Tuples(tables[..n], ons[..n - 1]), tables[n], ons[n - 1])
  }

  function Front(u: Tuple): Tuple {
    if u == [] then [] else u[..|u| - 1]
  }

  function Back(u: Tuple): Row {
    if u == [] then [] else u[|u| - 1]
  }

  lemma {:induction false} SnocInvertible()
    ensures Invertible(Snoc, (u: Tuple) => u != [], Front, Back)
  {
    forall a: Tuple, b: Row, u: Tuple
      ensures Snoc(a, b) == u <==> u != [] && Front(u) == a && Back(u) == b
    {
      if u != [] && Front(u) == a && Back(u) == b {
        assert u == u[..|u| - 1] + [u[|u| - 1]];
      }
    }
  }

  lemma {:induction false} ExtendCount(ts: seq<Tuple>, table: seq<Row>, on: OnExpr, u: Tuple)
    ensures multiset(Extend(ts, table, on))[u]
         == if u != [] && HoldsOn(on, u) then multiset(ts)[Front(u)] * multiset(table)[Back(u)] else 0
  {
    SnocInvertible();
    WeaveCount(ts, table, (t, r) => HoldsOn(on, t + [r]), Snoc, (v: Tuple) => v != [], Front, Back, u);
    if u != [] {
      assert u == Front(u) + [Back(u)];
    }
  }

  /** Extending depends on the multiset of tuples only. */
  lemma {:induction false} ExtendPermuted(a: seq<Tuple>, b: seq<Tuple>, table: seq<Row>, on: OnExpr)
    requires multiset(a) == multiset(b)
    ensures multiset(Extend(a, table, on)) == multiset(Extend(b, table, on))
  {
    forall u: Tuple
      ensures multiset(Extend(a, table, on))[u] == multiset(Extend(b, table, on))[u]
    {
      ExtendCount(a, table, on, u);
      ExtendCount(b, table, on, u);
    }
  }

  /** ON clause `i` speaks of the bindings up to `i + 1`, as the binder leaves it. */
  ghost predicate OnsWithin(ons: seq<OnExpr>, widths: seq<nat>) {
    forall i :: 0 <= i < |ons| ==> Within(ons[i], widths, i + 2)
  }

  lemma {:induction false} HoldsOnPrefix(on: OnExpr, widths: seq<nat>, n: nat, u: Tuple)
    requires Within(on, widths, n) && n <= |u|
    ensures HoldsOn(on, u) == HoldsOn(on, u[..n])
  {
    match on
    case Logical(true, l, r) =>
      HoldsOnPrefix(l, widths, n, u);
      HoldsOnPrefix(r, widths, n, u);
    case _ =>
  }

  /** Filtering as bindings are added comes to filtering the product. */
  lemma {:induction false} TuplesCount(tables: seq<seq<Row>>, ons: seq<OnExpr>, widths: seq<nat>, u: Tuple)
    requires tables != [] && |ons| == |tables| - 1 && OnsWithin(ons, widths)
    ensures multiset(Tuples(tables, ons))[u] == if AllOn(ons, u) then multiset(Product(tables))[u] else 0
    ensures |u| != |tables| ==> multiset(Product(tables))[u] == 0
  {
    var n := |tables| - 1;
    if n == 0 {
      SingleCount(tables[0], u);
    } else {
      var ts, ps := Tuples(tables[..n], ons[..n - 1]), Product(tables[..n]);
      TuplesCount(tables[..n], ons[..n - 1], widths, Front(u));
      ExtendCount(ts, tables[n], ons[n - 1], u);
      ProductCount(tables, u);
      assert Tuples(tables, ons) == Extend(ts, tables[n], ons[n - 1]);
      hide Tuples, Product, Extend, AllOn, HoldsOn;
      var m := multiset(tables[n])[Back(u)];
      if |u| == |tables| {
        AllOnFront(ons, widths, u);
      } else if u != [] {
        assert multiset(ps)[Front(u)] == 0 && multiset(ts)[Front(u)] == 0;
        assert 0 * m == 0;
      }
    }
  }

  lemma {:induction false} SingleCount(rows: seq<Row>, u: Tuple)
    ensures |u| != 1 ==> multiset(Single(rows))[u] == 0
  {
    assert u in Single(rows) ==> |u| == 1;
  }

  lemma {:induction false} ProductCount(tables: seq<seq<Row>>, u: Tuple)
    requires |tables| > 1
    ensures multiset(Product(tables))[u]
         == if u == [] then 0
            else multiset(Product(tables[..|tables| - 1]))[Front(u)] * multiset(tables[|tables| - 1])[Back(u)]
  {
    var n := |tables| - 1;
    SnocInvertible();
    WeaveCount(Product(tables[..n]), tables[n], (t, r) => true, Snoc, (v: Tuple) => v != [], Front, Back, u);
  }

  lemma {:induction false} AllOnFront(ons: seq<OnExpr>, widths: seq<nat>, u: Tuple)
    requires |ons| > 0 && OnsWithin(ons, widths) && |u| == |ons| + 1
    ensures AllOn(ons, u) <==> AllOn(ons[..|ons| - 1], Front(u)) && HoldsOn(ons[|ons| - 1], u)
  {
    var m := |ons| - 1;
    forall i | 0 <= i < m
      ensures HoldsOn(ons[i], u) == HoldsOn(ons[..m][i], Front(u))
    {
      HoldsOnPrefix(ons[i], widths, i + 2, u);
      HoldsOnPrefix(ons[i], widths, i + 2, Front(u));
      assert Front(u)[..i + 2] == u[..i + 2];
    }
  }

  lemma {:induction false} TuplesAreSatisfying(tables: seq<seq<Row>>, ons: seq<OnExpr>, widths: seq<nat>)
    requires tables != [] && |ons| == |tables| - 1 && OnsWithin(ons, widths)
    ensures multiset(Tuples(tables, ons)) == multiset(Satisfying(Product(tables), ons))
  {
    forall u: Tuple
      ensures multiset(Tuples(tables, ons))[u] == multiset(Satisfying(Product(tables), ons))[u]
    {
      TuplesCount(tables, ons, widths, u);
      SatisfyingCount(Product(tables), ons, u);
    }
  }

  // ---- one join ----

  /** Two loops that agree on every pair build the same list. */
  lemma {:induction false} WeaveRowSame<A, C, B>(a: A, c: C, bs: seq<B>, keep: (A, B) -> bool, mk: (A, B) -> Tuple,
                                                 keep': (C, B) -> bool, mk': (C, B) -> Tuple)
    requires forall j :: 0 <= j < |bs| ==> keep(a, bs[j]) == keep'(c, bs[j])
    requires forall j :: 0 <= j < |bs| ==> mk(a, bs[j]) == mk'(c, bs[j])
    ensures WeaveRow(a, bs, keep, mk) == WeaveRow(c, bs, keep', mk')
  {
    if bs != [] {
      WeaveRowSame(a, c, bs[..|bs| - 1], keep, mk, keep', mk');
    }
  }

  lemma {:induction false} WeaveSame<A, C, B>(xs: seq<A>, ys: seq<C>, bs: seq<B>, keep: (A, B) -> bool, mk: (A, B) -> Tuple,
                                              keep': (C, B) -> bool, mk': (C, B) -> Tuple)
    requires |xs| == |ys|
    requires forall i, j :: 0 <= i < |xs| && 0 <= j < |bs| ==> keep(xs[i], bs[j]) == keep'(ys[i], bs[j])
    requires forall i, j :: 0 <= i < |xs| && 0 <= j < |bs| ==> mk(xs[i], bs[j]) == mk'(ys[i], bs[j])
    ensures Weave(xs, bs, keep, mk) == Weave(ys, bs, keep', mk')
  {
    if xs != [] {
      var n := |xs| - 1;
      WeaveSame(xs[..n], ys[..n], bs, keep, mk, keep', mk');
      WeaveRowSame(xs[n], ys[n], bs, keep, mk, keep', mk');
    }
  }

  lemma {:induction false} ReadConcat(offsets: seq<nat>, widths: seq<nat>, a: seq<Row>, b: seq<Row>)
    requires |offsets| == |widths|
    ensures ReadRows(offsets, widths, a + b) == ReadRows(offsets, widths, a) + ReadRows(offsets, widths, b)
  {
  }

  lemma {:induction false} PairedSnoc(p: Row, bs: seq<Row>, b: Row)
    ensures Paired(p, bs + [b]) == Paired(p, bs) + [p + b]
  {
  }

  lemma {:induction false} ReadPartners(ks: Keys, offsets: seq<nat>, widths: seq<nat>, p: Row, build: seq<Row>)
    requires |offsets| == |widths|
    ensures ReadRows(offsets, widths, Paired(p, Partners(ks, p, build)))
         == WeaveRow(p, build, (q, b) => Joins(ks, q, b), (q: Row, b: Row) => ReadRow(offsets, widths, q + b))
  {
    if build != [] {
      var n := |build| - 1;
      ReadPartners(ks, offsets, widths, p, build[..n]);
      if Joins(ks, p, build[n]) {
        PairedSnoc(p, Partners(ks, p, build[..n]), build[n]);
        ReadConcat(offsets, widths, Paired(p, Partners(ks, p, build[..n])), [p + build[n]]);
      } else {
        assert Partners(ks, p, build) == Partners(ks, p, build[..n]);
      }
    }
  }

  /** The tuples read from an inner join, as a double loop. */
  function ReadLoop(ks: Keys, offsets: seq<nat>, widths: seq<nat>, probe: seq<Row>, build: seq<Row>): seq<Tuple>
    requires |offsets| == |widths|
  {
    Weave(probe, build, (q, b) => Joins(ks, q, b), (q: Row, b: Row) => ReadRow(offsets, widths, q + b))
  }

  /** An inner join read through offsets is a double loop. */
  lemma {:induction false} ReadJoin(ks: Keys, offsets: seq<nat>, widths: seq<nat>, probe: seq<Row>, build: seq<Row>)
    requires |offsets| == |widths|
    ensures ReadRows(offsets, widths, NestedLoop(Inner, ks, probe, build))
         == ReadLoop(ks, offsets, widths, probe, build)
  {
    if probe != [] {
      var n := |probe| - 1;
      ReadJoin(ks, offsets, widths, probe[..n], build);
      ReadPartners(ks, offsets, widths, probe[n], build);
      ReadConcat(offsets, widths, NestedLoop(Inner, ks, probe[..n], build), RowOut(Inner, ks, probe[n], build));
    }
  }

  // ---- what the keys of an ON clause mean ----

  /** `u` is made of the build row `b` and of columns of the probe row `p`. */
  ghost predicate MadeOf(u: Tuple, offsets: seq<nat>, widths: seq<nat>, bid: nat, p: Row, b: Row) {
    && bid < |u| <= |offsets| && |u| <= |widths|
    && u[bid] == b && |b| == widths[bid]
    && (forall i :: 0 <= i < |u| && i != bid ==> |u[i]| == widths[i] && offsets[i] + widths[i] <= |p|)
    && (forall i, c :: 0 <= i < |u| && i != bid && 0 <= c < widths[i] ==> p[offsets[i] + c] == u[i][c])
  }

  lemma {:induction false} PickConcat(a: seq<nat>, b: seq<nat>, row: Row)
    ensures Pick(a + b, row) == Pick(a, row) + Pick(b, row)
  {
  }

  lemma {:induction false} NullConcat(a: Key, b: Key)
    ensures AnyNull(a + b) <==> AnyNull(a) || AnyNull(b)
  {
    assert forall i :: 0 <= i < |a| ==> (a + b)[i] == a[i];
    if i :| 0 <= i < |b| && b[i].Null? {
      assert (a + b)[|a| + i].Null?;
    }
  }

  lemma {:induction false} ConcatEqual(a: Key, b: Key, c: Key, d: Key)
    requires |a| == |c|
    ensures a + b == c + d <==> a == c && b == d
  {
    if a + b == c + d {
      assert (a + b)[..|a|] == a && (c + d)[..|a|] == c;
      assert (a + b)[|a|..] == b && (c + d)[|a|..] == d;
    }
  }

  /** Keys that join are exactly those of a tuple that meets the ON clause. */
  lemma {:induction false} KeysMeanOn(on: OnExpr, offsets: seq<nat>, widths: seq<nat>, bid: nat, u: Tuple, p: Row, b: Row)
    requires MadeOf(u, offsets, widths, bid, p, b) && Within(on, widths, |u|)
    requires Splits(on, |offsets|, bid)
    ensures var kv := DecomposeOn(on, offsets, bid).value;
            Joins(KeysOf(kv.build, kv.probe), p, b) <==> HoldsOn(on, u)
  {
    var kv := DecomposeOn(on, offsets, bid).value;
    match on
    case Logical(_, l, r) =>
      var lv, rv := DecomposeOn(l, offsets, bid).value, DecomposeOn(r, offsets, bid).value;
      KeysMeanOn(l, offsets, widths, bid, u, p, b);
      KeysMeanOn(r, offsets, widths, bid, u, p, b);
      PickConcat(lv.probe, rv.probe, p);
      PickConcat(lv.build, rv.build, b);
      ConcatEqual(Pick(lv.probe, p), Pick(rv.probe, p), Pick(lv.build, b), Pick(rv.build, b));
      NullConcat(Pick(lv.probe, p), Pick(rv.probe, p));
    case Binary(_, l, r) =>
      OneKeyMeans(kv, p, b);
  }

  lemma {:induction false} OneKeyMeans(kv: KeyVecs, p: Row, b: Row)
    requires |kv.probe| == |kv.build| == 1 && kv.probe[0] < |p| && kv.build[0] < |b|
    ensures Joins(KeysOf(kv.build, kv.probe), p, b) <==> p[kv.probe[0]] == b[kv.build[0]] && !p[kv.probe[0]].Null?
  {
    var k := Pick(kv.probe, p);
    assert k == [p[kv.probe[0]]];
    assert Pick(kv.build, b) == [b[kv.build[0]]];
  }

  // ---- the plan, step by step ----

  ghost predicate Wide(rows: seq<Row>, w: nat) {
    forall i :: 0 <= i < |rows| ==> |rows[i]| == w
  }

  ghost predicate TablesWide(tables: seq<seq<Row>>, widths: seq<nat>) {
    |widths| == |tables| && forall i :: 0 <= i < |tables| ==> Wide(tables[i], widths[i])
  }

  /** The plan covers the first `k` bindings and, read through the offsets, yields their joined tuples. */
  ghost predicate Covers(plan: Plan, tables: seq<seq<Row>>, ons: seq<OnExpr>, widths: seq<nat>,
                         offsets: seq<nat>, total: nat, k: nat) {
    && 0 < k <= |tables| == |offsets| == |widths| == |ons| + 1
    && (forall i :: 0 <= i < k ==> offsets[i] + widths[i] <= total)
    && Wide(Eval(plan, tables), total)
    && multiset(ReadRows(offsets[..k], widths[..k], Eval(plan, tables)))
       == multiset(Tuples(tables[..k], ons[..k - 1]))
  }

  lemma {:induction false} PartnersWide(ks: Keys, p: Row, build: seq<Row>, w: nat)
    requires Wide(build, w)
    ensures Wide(Partners(ks, p, build), w)
  {
    if build != [] {
      PartnersWide(ks, p, build[..|build| - 1], w);
    }
  }

  lemma {:induction false} JoinWide(ks: Keys, probe: seq<Row>, build: seq<Row>, v: nat, w: nat)
    requires Wide(probe, v) && Wide(build, w)
    ensures Wide(NestedLoop(Inner, ks, probe, build), v + w)
  {
    if probe != [] {
      var n := |probe| - 1;
      JoinWide(ks, probe[..n], build, v, w);
      PartnersWide(ks, probe[n], build, w);
      hide Partners;
      assert Wide(RowOut(Inner, ks, probe[n], build), v + w);
    }
  }

  /** Appending a build row appends its binding to the tuple. */
  lemma {:induction false} ReadAppended(offsets: seq<nat>, widths: seq<nat>, k: nat, p: Row, b: Row)
    requires k < |offsets| == |widths|
    requires forall i :: 0 <= i < k ==> offsets[i] + widths[i] <= |p|
    requires offsets[k] == |p| && |b| == widths[k]
    ensures ReadRow(offsets[..k + 1], widths[..k + 1], p + b) == ReadRow(offsets[..k], widths[..k], p) + [b]
    ensures MadeOf(ReadRow(offsets[..k], widths[..k], p) + [b], offsets, widths, k, p, b)
  {
    var u := ReadRow(offsets[..k + 1], widths[..k + 1], p + b);
    var t := ReadRow(offsets[..k], widths[..k], p);
    forall i | 0 <= i < k
      ensures u[i] == t[i] == p[offsets[i]..offsets[i] + widths[i]]
    {
      assert (p + b)[offsets[i]..offsets[i] + widths[i]] == p[offsets[i]..offsets[i] + widths[i]];
    }
    assert u[k] == (p + b)[|p|..|p| + |b|] == b;
  }

  /** One more binding, scanned on the build side of the next join. */
  lemma {:induction false} JoinStep(plan: Plan, tables: seq<seq<Row>>, ons: seq<OnExpr>, widths: seq<nat>,
                                    offsets: seq<nat>, total: nat, k: nat)
    requires Covers(plan, tables, ons, widths, offsets, total, k) && k < |tables|
    requires TablesWide(tables, widths) && OnsWithin(ons, widths) && Splits(ons[k - 1], |tables|, k)
    ensures var kv := DecomposeOn(ons[k - 1], offsets[k := total], k).value;
            Covers(Join(Scan(k), plan, kv.build, kv.probe), tables, ons, widths,
                   offsets[k := total], total + widths[k], k + 1)
  {
    hide NestedLoop, Weave, Extend, ReadLoop, Pick;
    var on, offs := ons[k - 1], offsets[k := total];
    var kv := DecomposeOn(on, offs, k).value;
    var ks := KeysOf(kv.build, kv.probe);
    var probe, build := Eval(plan, tables), tables[k];
    assert offs[..k] == offsets[..k];
    JoinWide(ks, probe, build, total, widths[k]);
    ReadJoin(ks, offs[..k + 1], widths[..k + 1], probe, build);
    JoinStepLoop(on, offs, widths, k, total, probe, build);
    ExtendPermuted(ReadRows(offs[..k], widths[..k], probe), Tuples(tables[..k], ons[..k - 1]), build, on);
    assert tables[..k + 1][..k] == tables[..k] && ons[..k][..k - 1] == ons[..k - 1];
    assert Tuples(tables[..k + 1], ons[..k]) == Extend(Tuples(tables[..k], ons[..k - 1]), build, on);
    assert Eval(Join(Scan(k), plan, kv.build, kv.probe), tables) == NestedLoop(Inner, ks, probe, build);
  }

  lemma {:induction false} JoinStepLoop(on: OnExpr, offs: seq<nat>, widths: seq<nat>, k: nat, total: nat,
                                        probe: seq<Row>, build: seq<Row>)
    requires k < |offs| == |widths| && offs[k] == total
    requires forall i :: 0 <= i < k ==> offs[i] + widths[i] <= total
    requires Wide(probe, total) && Wide(build, widths[k])
    requires Within(on, widths, k + 1) && Splits(on, |offs|, k)
    ensures var kv := DecomposeOn(on, offs, k).value;
            ReadLoop(KeysOf(kv.build, kv.probe), offs[..k + 1], widths[..k + 1], probe, build)
            == Extend(ReadRows(offs[..k], widths[..k], probe), build, on)
  {
    var kv := DecomposeOn(on, offs, k).value;
    var ks := KeysOf(kv.build, kv.probe);
    var us := ReadRows(offs[..k], widths[..k], probe);
    var keep := (q, b) => Joins(ks, q, b);
    var mk := (q: Row, b: Row) => ReadRow(offs[..k + 1], widths[..k + 1], q + b);
    var keep' := (t: Tuple, r: Row) => HoldsOn(on, t + [r]);
    forall i, j | 0 <= i < |probe| && 0 <= j < |build|
      ensures keep(probe[i], build[j]) == keep'(us[i], build[j])
      ensures mk(probe[i], build[j]) == Snoc(us[i], build[j])
    {
      ReadAppended(offs, widths, k, probe[i], build[j]);
      KeysMeanOn(on, offs, widths, k, us[i] + [build[j]], probe[i], build[j]);
    }
    WeaveSame(probe, us, build, keep, mk, keep', Snoc);
  }

  /** A single table. */
  lemma {:induction false} ScanCovers(tables: seq<seq<Row>>, ons: seq<OnExpr>, widths: seq<nat>, offsets: seq<nat>)
    requires 0 < |tables| == |offsets| == |ons| + 1 && TablesWide(tables, widths)
    requires offsets[0] == 0
    ensures Covers(Scan(0), tables, ons, widths, offsets, widths[0], 1)
  {
    var us := ReadRows(offsets[..1], widths[..1], tables[0]);
    forall i | 0 <= i < |us|
      ensures us[i] == [tables[0][i]]
    {
      assert tables[0][i][0..widths[0]] == tables[0][i];
    }
    assert us == Single(tables[0]);
    assert tables[..1][0] == tables[0];
  }

  // ---- the first table on the build side ----

  function Swapped(p: Row, b: Row): Tuple {
    [b, p]
  }

  function Second(u: Tuple): Row {
    if |u| == 2 then u[1] else []
  }

  function First(u: Tuple): Row {
    if |u| == 2 then u[0] else []
  }

  function SwapTuples(t0: seq<Row>, t1: seq<Row>, on: OnExpr): seq<Tuple> {
    Weave(t1, t0, (p: Row, b: Row) => HoldsOn(on, [b, p]), Swapped)
  }

  lemma {:induction false} SwapInvertible()
    ensures Invertible(Swapped, (u: Tuple) => |u| == 2, Second, First)
  {
  }

  lemma {:induction false} SingleCounts(rows: seq<Row>, x: Row)
    ensures multiset(Single(rows))[[x]] == multiset(rows)[x]
  {
    if rows != [] {
      var n := |rows| - 1;
      SingleCounts(rows[..n], x);
      assert rows == rows[..n] + [rows[n]];
      assert Single(rows) == Single(rows[..n]) + [[rows[n]]];
    }
  }

  lemma {:induction false} SwapCount(t0: seq<Row>, t1: seq<Row>, on: OnExpr)
    ensures multiset(SwapTuples(t0, t1, on)) == multiset(Extend(Single(t0), t1, on))
  {
    hide SwapTuples, Extend, Single;
    forall u: Tuple
      ensures multiset(SwapTuples(t0, t1, on))[u] == multiset(Extend(Single(t0), t1, on))[u]
    {
      SwapTupleCount(t0, t1, on, u);
      ExtendCount(Single(t0), t1, on, u);
      hide HoldsOn;
      if |u| == 2 {
        SingleCounts(t0, u[0]);
        assert Front(u) == [u[0]];
      } else if u != [] {
        SingleCount(t0, Front(u));
        assert 0 * multiset(t1)[Back(u)] == 0;
      }
    }
  }

  lemma {:induction false} SwapTupleCount(t0: seq<Row>, t1: seq<Row>, on: OnExpr, u: Tuple)
    ensures multiset(SwapTuples(t0, t1, on))[u]
         == if |u| == 2 && HoldsOn(on, u) then multiset(t0)[u[0]] * multiset(t1)[u[1]] else 0
  {
    SwapInvertible();
    WeaveCount(t1, t0, (p: Row, b: Row) => HoldsOn(on, [b, p]), Swapped, (v: Tuple) => |v| == 2, Second, First, u);
    if |u| == 2 {
      assert u == [u[0], u[1]];
    }
  }

  lemma {:induction false} ReadSwapped(offs: seq<nat>, widths: seq<nat>, p: Row, b: Row)
    requires 2 <= |offs| == |widths| && offs[0] == |p| == widths[1] && offs[1] == 0 && |b| == widths[0]
    ensures MadeOf([b, p], offs, widths, 0, p, b)
    ensures ReadRow(offs[..2], widths[..2], p + b) == [b, p]
  {
    assert (p + b)[|p|..|p| + |b|] == b && (p + b)[0..|p|] == p;
  }

  lemma {:induction false} SwapLoop(on: OnExpr, offs: seq<nat>, widths: seq<nat>, t0: seq<Row>, t1: seq<Row>)
    requires 2 <= |offs| == |widths| && offs[0] == widths[1] && offs[1] == 0
    requires Wide(t0, widths[0]) && Wide(t1, widths[1])
    requires Within(on, widths, 2) && Splits(on, |offs|, 0)
    ensures var kv := DecomposeOn(on, offs, 0).value;
            ReadLoop(KeysOf(kv.build, kv.probe), offs[..2], widths[..2], t1, t0) == SwapTuples(t0, t1, on)
  {
    var kv := DecomposeOn(on, offs, 0).value;
    var ks := KeysOf(kv.build, kv.probe);
    var keep := (q, b) => Joins(ks, q, b);
    var mk := (q: Row, b: Row) => ReadRow(offs[..2], widths[..2], q + b);
    var keep' := (p: Row, b: Row) => HoldsOn(on, [b, p]);
    forall i, j | 0 <= i < |t1| && 0 <= j < |t0|
      ensures keep(t1[i], t0[j]) == keep'(t1[i], t0[j])
      ensures mk(t1[i], t0[j]) == Swapped(t1[i], t0[j])
    {
      ReadSwapped(offs, widths, t1[i], t0[j]);
      KeysMeanOn(on, offs, widths, 0, [t0[j], t1[i]], t1[i], t0[j]);
    }
    WeaveSame(t1, t1, t0, keep, mk, keep', Swapped);
  }

  /** Building on the first table swaps the columns, and the offsets follow. */
  lemma {:induction false} SwapCovers(tables: seq<seq<Row>>, ons: seq<OnExpr>, widths: seq<nat>, offsets: seq<nat>)
    requires 2 <= |tables| == |offsets| == |ons| + 1 && TablesWide(tables, widths) && OnsWithin(ons, widths)
    requires offsets[0] == widths[1] && offsets[1] == 0 && Splits(ons[0], |tables|, 0)
    ensures var kv := DecomposeOn(ons[0], offsets, 0).value;
            Covers(Join(Scan(0), Scan(1), kv.build, kv.probe), tables, ons, widths, offsets, widths[0] + widths[1], 2)
  {
    hide NestedLoop, Weave, Extend, ReadLoop, Pick;
    var on := ons[0];
    var kv := DecomposeOn(on, offsets, 0).value;
    var ks := KeysOf(kv.build, kv.probe);
    JoinWide(ks, tables[1], tables[0], widths[1], widths[0]);
    ReadJoin(ks, offsets[..2], widths[..2], tables[1], tables[0]);
    SwapLoop(on, offsets, widths, tables[0], tables[1]);
    SwapCount(tables[0], tables[1], on);
    TwoTuples(tables, ons);
    assert Eval(Join(Scan(0), Scan(1), kv.build, kv.probe), tables) == NestedLoop(Inner, ks, tables[1], tables[0]);
  }

  lemma {:induction false} TwoTuples(tables: seq<seq<Row>>, ons: seq<OnExpr>)
    requires 2 <= |tables| && |ons| > 0
    ensures Tuples(tables[..2], ons[..1]) == Extend(Single(tables[0]), tables[1], ons[0])
  {
    hide Extend;
    assert tables[..2][..1] == [tables[0]];
    assert ons[..1][..0] == [];
  }

  lemma {:induction false} SplitsEither(on: OnExpr, widths: seq<nat>, n: nat)
    requires Within(on, widths, 2) && n >= 2
    ensures Splits(on, n, 0) <==> Splits(on, n, 1)
  {
    match on
    case Logical(true, l, r) =>
      SplitsEither(l, widths, n);
      SplitsEither(r, widths, n);
    case _ =>
  }

  // ---- the planner ----

  function Widths(bindings: seq<Binding>): (w: seq<nat>)
    ensures |w| == |bindings| && forall i :: 0 <= i < |w| ==> w[i] == bindings[i].width
  {
    seq(|bindings|, i requires 0 <= i < |bindings| => bindings[i].width)
  }

  /** The rows each binding scans; a table that does not exist has none. */
  function TablesOf(catalog: map<Name, Table>, bindings: seq<Binding>): (t: seq<seq<Row>>)
    ensures |t| == |bindings|
    ensures forall i :: 0 <= i < |t| ==>
      t[i] == if bindings[i].table in catalog then catalog[bindings[i].table].rows else []
  {
    seq(|bindings|, i requires 0 <= i < |bindings| =>
      if bindings[i].table in catalog then catalog[bindings[i].table].rows else [])
  }

  /** The tables exist and each ON clause equates columns of its new binding with earlier ones. */
  predicate Plannable(catalog: map<Name, Table>, bindings: seq<Binding>, ons: seq<OnExpr>) {
    && (forall i :: 0 <= i < |bindings| ==> bindings[i].table in catalog)
    && (forall i :: 0 <= i < |ons| ==> Splits(ons[i], |bindings|, i + 1))
  }

  /** The join of the first two bindings, building on the table with fewer rows. */
  method FirstJoin(catalog: map<Name, Table>, bindings: seq<Binding>, ons: seq<OnExpr>)
    returns (plan: Option<Plan>, offsets: seq<nat>)
    requires 2 <= |bindings| == |ons| + 1
    requires bindings[0].table in catalog && bindings[1].table in catalog
    requires OnsWithin(ons, Widths(bindings)) && TablesWide(TablesOf(catalog, bindings), Widths(bindings))
    ensures |offsets| == |bindings|
    ensures plan.Some? <==> Splits(ons[0], |bindings|, 1)
    ensures plan.Some? ==>
      Covers(plan.value, TablesOf(catalog, bindings), ons, Widths(bindings), offsets,
             bindings[0].width + bindings[1].width, 2)
    ensures plan.Some? ==> BuildsOnScans(plan.value)
  {
    hide Covers;
    ghost var tables, widths := TablesOf(catalog, bindings), Widths(bindings);
    SplitsEither(ons[0], widths, |bindings|);
    offsets := seq(|bindings|, _ => 0);
    if catalog[bindings[0].table].count <= catalog[bindings[1].table].count {
      offsets := offsets[0 := bindings[1].width];
      var keys := DecomposeOn(ons[0], offsets, 0);
      if keys.None? {
        return None, offsets;
      }
      SwapCovers(tables, ons, widths, offsets);
      plan := Some(Join(Scan(0), Scan(1), keys.value.build, keys.value.probe));
    } else {
      ScanCovers(tables, ons, widths, offsets);
      ghost var before := offsets;
      offsets := offsets[1 := bindings[0].width];
      var keys := DecomposeOn(ons[0], offsets, 1);
      if keys.None? {
        return None, offsets;
      }
      JoinStep(Scan(0), tables, ons, widths, before, widths[0], 1);
      plan := Some(Join(Scan(1), Scan(0), keys.value.build, keys.value.probe));
    }
  }

  /**
   * Plans the FROM clause. When it succeeds, the operator tree yields exactly the tuples of
   * the product that satisfy every ON clause; it fails only for an unknown table or an ON
   * clause of another form.
   */
  method BuildScans(catalog: map<Name, Table>, bindings: seq<Binding>, ons: seq<OnExpr>)
    returns (plan: Option<Plan>, offsets: seq<nat>)
    requires 1 <= |bindings| == |ons| + 1
    requires OnsWithin(ons, Widths(bindings)) && TablesWide(TablesOf(catalog, bindings), Widths(bindings))
    ensures plan.Some? <==> Plannable(catalog, bindings, ons)
    ensures plan.Some? ==>
      var tables := TablesOf(catalog, bindings);
      && |offsets| == |bindings|
      && multiset(ReadRows(offsets, Widths(bindings), Eval(plan.value, tables)))
         == multiset(Satisfying(Product(tables), ons))
    ensures plan.Some? ==> BuildsOnScans(plan.value)
  {
    hide Covers, Eval, Product, Satisfying, Splits, Within, OnsWithin, TablesWide;
    ghost var tables, widths := TablesOf(catalog, bindings), Widths(bindings);
    offsets := seq(|bindings|, _ => 0);
    if bindings[0].table !in catalog {
      return None, offsets;
    }
    if |bindings| == 1 {
      ScanCovers(tables, ons, widths, offsets);
      CoversAll(Scan(0), tables, ons, widths, offsets, widths[0]);
      return Some(Scan(0)), offsets;
    }
    if bindings[1].table !in catalog {
      return None, offsets;
    }
    plan, offsets := FirstJoin(catalog, bindings, ons);
    if plan.None? {
      return;
    }
    var total: nat := bindings[0].width + bindings[1].width;
    var i := 2;
    while i < |bindings|
      invariant 2 <= i <= |bindings| && plan.Some? && |offsets| == |bindings|
      invariant forall j :: 0 <= j < i ==> bindings[j].table in catalog
      invariant forall j :: 0 <= j < i - 1 ==> Splits(ons[j], |bindings|, j + 1)
      invariant Covers(plan.value, tables, ons, widths, offsets, total, i)
      invariant BuildsOnScans(plan.value)
    {
      var next;
      next, offsets := BuildJoin(catalog, bindings, ons, plan.value, i, total, offsets);
      if next.None? {
        return None, offsets;
      }
      plan := next;
      total := total + bindings[i].width;
      i := i + 1;
    }
    CoversAll(plan.value, tables, ons, widths, offsets, total);
  }

  /** Joins one more binding to the tree on its left. */
  method BuildJoin(catalog: map<Name, Table>, bindings: seq<Binding>, ons: seq<OnExpr>,
                   left: Plan, right: nat, leftCols: nat, offsets: seq<nat>)
    returns (plan: Option<Plan>, offs: seq<nat>)
    requires 2 <= right < |bindings| == |ons| + 1 == |offsets|
    requires OnsWithin(ons, Widths(bindings)) && TablesWide(TablesOf(catalog, bindings), Widths(bindings))
    requires Covers(left, TablesOf(catalog, bindings), ons, Widths(bindings), offsets, leftCols, right)
    ensures |offs| == |bindings|
    ensures plan.Some? <==> bindings[right].table in catalog && Splits(ons[right - 1], |bindings|, right)
    ensures plan.Some? ==>
      Covers(plan.value, TablesOf(catalog, bindings), ons, Widths(bindings), offs,
             leftCols + bindings[right].width, right + 1)
    ensures plan.Some? && BuildsOnScans(left) ==> BuildsOnScans(plan.value)
  {
    hide Covers;
    offs := offsets;
    if bindings[right].table !in catalog {
      return None, offs;
    }
    offs := offs[right := leftCols];
    var keys := DecomposeOn(ons[right - 1], offs, right);
    if keys.None? {
      return None, offs;
    }
    JoinStep(left, TablesOf(catalog, bindings), ons, Widths(bindings), offsets, leftCols, right);
    plan := Some(Join(Scan(right), left, keys.value.build, keys.value.probe));
  }

  lemma {:induction false} CoversAll(plan: Plan, tables: seq<seq<Row>>, ons: seq<OnExpr>, widths: seq<nat>,
                                     offsets: seq<nat>, total: nat)
    requires Covers(plan, tables, ons, widths, offsets, total, |tables|) && OnsWithin(ons, widths)
    ensures |offsets| == |widths|
    ensures multiset(ReadRows(offsets, widths, Eval(plan, tables))) == multiset(Satisfying(Product(tables), ons))
  {
    var n := |tables|;
    assert offsets[..n] == offsets && widths[..n] == widths && tables[..n] == tables && ons[..n - 1] == ons;
    TuplesAreSatisfying(tables, ons, widths);
  }

  /** Every join builds on a table scan. */
  predicate BuildsOnScans(p: Plan) {
    p.Scan? || (p.build.Scan? && BuildsOnScans(p.probe))
  }

  /** Running the hash joins of the tree, each probe side fed by the join below it. */
  method RunPlan(p: Plan, tables: seq<seq<Row>>, hash: Key -> nat) returns (out: seq<Row>)
    requires BuildsOnScans(p) && forall i :: 0 <= i < |tables| ==> |tables[i]| <= TWO_32 / 4
    ensures out == Eval(p, tables)
  {
    match p
    case Scan(b) =>
      out := if b < |tables| then tables[b] else [];
    case Join(b, q, bk, pk) =>
      var probe := RunPlan(q, tables, hash);
      var build := if b.bid < |tables| then tables[b.bid] else [];
      assert Flatten([build]) == build && Flatten([probe]) == probe;
      out := HashJoining.RunHashJoin(Inner, KeysOf(bk, pk), hash, [build], [probe]);
  }

  /**
   * Plans the FROM clause and runs the plan. The rows that come out, read through the offsets,
   * are the tuples of the product that satisfy every ON clause, each as often as it occurs there.
   */
  method PlanAndRun(catalog: map<Name, Table>, bindings: seq<Binding>, ons: seq<OnExpr>, hash: Key -> nat)
    returns (out: Option<seq<Row>>, offsets: seq<nat>)
    requires 1 <= |bindings| == |ons| + 1
    requires OnsWithin(ons, Widths(bindings)) && TablesWide(TablesOf(catalog, bindings), Widths(bindings))
    requires forall i :: 0 <= i < |bindings| ==> |TablesOf(catalog, bindings)[i]| <= TWO_32 / 4
    ensures out.Some? <==> Plannable(catalog, bindings, ons)
    ensures out.Some? ==>
      && |offsets| == |bindings|
      && multiset(ReadRows(offsets, Widths(bindings), out.value))
         == multiset(Satisfying(Product(TablesOf(catalog, bindings)), ons))
  {
    hide *;
    var plan;
    plan, offsets := BuildScans(catalog, bindings, ons);
    if plan.None? {
      return None, offsets;
    }
    var rows := RunPlan(plan.value, TablesOf(catalog, bindings), hash);
    out := Some(rows);
  }
}
