/** The hash join operator: build side into an open-addressing table, probe side chunk by chunk. */
module HashJoining {
  import opened Bytes
  import opened Values
  import opened LinearProbing
  import opened JoinSpec

  /** A build row, by chunk and row number. */
  datatype Ref = Ref(chunk: nat, row: nat)

  datatype Source = NoBuild | From(ref: Ref)

  datatype Pair = Pair(row: nat, src: Source)

  type Chunks = seq<seq<Row>>

  datatype Result = None | Some(rows: seq<Row>)

  predicate InChunks(chunks: Chunks, x: Ref) {
    x.chunk < |chunks| && x.row < |chunks[x.chunk]|
  }

  function RowOf(chunks: Chunks, x: Ref): Row
    requires InChunks(chunks, x)
  {
    chunks[x.chunk][x.row]
  }

  predicate AllIn(chunks: Chunks, refs: seq<Ref>) {
    forall k :: 0 <= k < |refs| ==> InChunks(chunks, refs[k])
  }

  predicate UpTo(chunks: Chunks, ci: nat, r: nat) {
    ci <= |chunks| && r <= if ci < |chunks| then |chunks[ci]| else 0
  }

  /** The rows before row `r` of chunk `ci`. */
  function RowsTo(chunks: Chunks, ci: nat, r: nat): seq<Row>
    requires UpTo(chunks, ci, r)
    decreases ci, r
  {
    if r > 0 then RowsTo(chunks, ci, r - 1) + [chunks[ci][r - 1]]
    else if ci > 0 then RowsTo(chunks, ci - 1, |chunks[ci - 1]|)
    else []
  }

  /** Those of them whose key holds no NULL. */
  function RefsTo(ks: Keys, chunks: Chunks, ci: nat, r: nat): (refs: seq<Ref>)
    requires UpTo(chunks, ci, r)
    ensures AllIn(chunks, refs)
    decreases ci, r
  {
    if r > 0 then
      RefsTo(ks, chunks, ci, r - 1)
      + if AnyNull(ks.build(chunks[ci][r - 1])) then [] else [Ref(ci, r - 1)]
    else if ci > 0 then RefsTo(ks, chunks, ci - 1, |chunks[ci - 1]|)
    else []
  }

  lemma {:induction false} RowsToChunk(chunks: Chunks, ci: nat, r: nat)
    requires ci < |chunks| && r <= |chunks[ci]|
    ensures RowsTo(chunks, ci, r) == RowsTo(chunks, ci, 0) + chunks[ci][..r]
  {
    if r > 0 {
      RowsToChunk(chunks, ci, r - 1);
      assert chunks[ci][..r] == chunks[ci][..r - 1] + [chunks[ci][r - 1]];
    }
  }

  lemma {:induction false} FlattenSnoc(chunks: Chunks, c: seq<Row>)
    ensures Flatten(chunks + [c]) == Flatten(chunks) + c
  {
    if chunks == [] {
      assert chunks + [c] == [c];
      assert [c][1..] == [];
    } else {
      FlattenSnoc(chunks[1..], c);
      assert (chunks + [c])[1..] == chunks[1..] + [c];
    }
  }

  lemma {:induction false} RowsToFlatten(chunks: Chunks, ci: nat)
    requires ci <= |chunks|
    ensures RowsTo(chunks, ci, 0) == Flatten(chunks[..ci])
  {
    if ci > 0 {
      RowsToFlatten(chunks, ci - 1);
      RowsToChunk(chunks, ci - 1, |chunks[ci - 1]|);
      FlattenSnoc(chunks[..ci - 1], chunks[ci - 1]);
      assert chunks[..ci] == chunks[..ci - 1] + [chunks[ci - 1]];
      assert chunks[ci - 1][..|chunks[ci - 1]|] == chunks[ci - 1];
    }
  }

  predicate Hit(ks: Keys, chunks: Chunks, p: Row, x: Ref)
    requires InChunks(chunks, x)
  {
    ks.build(RowOf(chunks, x)) == ks.probe(p)
  }

  /** The references with the key of `p`, in order. */
  function Hits(ks: Keys, chunks: Chunks, p: Row, refs: seq<Ref>): (h: seq<Ref>)
    requires AllIn(chunks, refs)
    ensures AllIn(chunks, h)
  {
    if refs == [] then []
    else
      var n := |refs| - 1;
      Hits(ks, chunks, p, refs[..n]) + if Hit(ks, chunks, p, refs[n]) then [refs[n]] else []
  }

  function RowsOf(chunks: Chunks, refs: seq<Ref>): (rows: seq<Row>)
    requires AllIn(chunks, refs)
    ensures |rows| == |refs| && forall k :: 0 <= k < |refs| ==> rows[k] == RowOf(chunks, refs[k])
  {
    seq(|refs|, k requires 0 <= k < |refs| => RowOf(chunks, refs[k]))
  }

  lemma {:induction false} HitsSnoc(ks: Keys, chunks: Chunks, p: Row, refs: seq<Ref>, x: Ref)
    requires AllIn(chunks, refs) && InChunks(chunks, x)
    ensures AllIn(chunks, refs + [x])
    ensures Hits(ks, chunks, p, refs + [x])
         == Hits(ks, chunks, p, refs) + if Hit(ks, chunks, p, x) then [x] else []
  {
    assert (refs + [x])[..|refs|] == refs;
  }

  lemma {:induction false} PartnersSnoc(ks: Keys, p: Row, rows: seq<Row>, b: Row)
    ensures Partners(ks, p, rows + [b]) == Partners(ks, p, rows) + if Joins(ks, p, b) then [b] else []
  {
    assert (rows + [b])[..|rows|] == rows;
  }

  lemma {:induction false} HitJoins(ks: Keys, chunks: Chunks, p: Row, x: Ref)
    requires InChunks(chunks, x) && !AnyNull(ks.probe(p))
    ensures Hit(ks, chunks, p, x) <==> Joins(ks, p, RowOf(chunks, x))
    ensures AnyNull(ks.build(RowOf(chunks, x))) ==> !Joins(ks, p, RowOf(chunks, x))
  {
  }

  lemma {:induction false} HitsNext(ks: Keys, chunks: Chunks, p: Row, ci: nat, r: nat)
    requires UpTo(chunks, ci, r) && !AnyNull(ks.probe(p)) && r > 0
    requires RowsOf(chunks, Hits(ks, chunks, p, RefsTo(ks, chunks, ci, r - 1))) == Partners(ks, p, RowsTo(chunks, ci, r - 1))
    ensures RowsOf(chunks, Hits(ks, chunks, p, RefsTo(ks, chunks, ci, r))) == Partners(ks, p, RowsTo(chunks, ci, r))
  {
    hide Partners, Hits, AnyNull, Joins, Hit;
    var b, x := chunks[ci][r - 1], Ref(ci, r - 1);
    var refs := RefsTo(ks, chunks, ci, r - 1);
    assert RowsTo(chunks, ci, r) == RowsTo(chunks, ci, r - 1) + [b];
    PartnersSnoc(ks, p, RowsTo(chunks, ci, r - 1), b);
    HitJoins(ks, chunks, p, x);
    if !AnyNull(ks.build(b)) {
      HitsSnoc(ks, chunks, p, refs, x);
    } else {
      assert refs + [] == refs;
      assert RefsTo(ks, chunks, ci, r) == refs;
    }
  }

  lemma {:induction false} NoHits(ks: Keys, chunks: Chunks, p: Row)
    ensures RowsOf(chunks, Hits(ks, chunks, p, [])) == [] == Partners(ks, p, [])
  {
  }

  /** The hits among the non-NULL build rows are the rows that join `p`. */
  lemma {:induction false} HitsArePartners(ks: Keys, chunks: Chunks, p: Row, ci: nat, r: nat)
    requires UpTo(chunks, ci, r) && !AnyNull(ks.probe(p))
    ensures RowsOf(chunks, Hits(ks, chunks, p, RefsTo(ks, chunks, ci, r)))
         == Partners(ks, p, RowsTo(chunks, ci, r))
    decreases ci, r
  {
    hide Partners, Hits, AnyNull, Joins, Hit;
    if r > 0 {
      HitsArePartners(ks, chunks, p, ci, r - 1);
      HitsNext(ks, chunks, p, ci, r);
    } else if ci > 0 {
      HitsArePartners(ks, chunks, p, ci - 1, |chunks[ci - 1]|);
    } else {
      NoHits(ks, chunks, p);
    }
  }

  // ---- the positions a probe collects ----

  ghost predicate Ascending(s: seq<nat>) {
    forall i, j :: 0 <= i < j < |s| ==> s[i] < s[j]
  }

  lemma {:induction false} AscendingLast(s: seq<nat>, i: nat)
    requires Ascending(s) && i < |s|
    ensures s[i] <= s[|s| - 1] && (s[i] == s[|s| - 1] ==> i == |s| - 1)
  {
  }

  /** `found` holds exactly the positions below `n` of references that hit. */
  ghost predicate FoundAll(ks: Keys, chunks: Chunks, p: Row, refs: seq<Ref>, found: seq<nat>)
    requires AllIn(chunks, refs)
  {
    && Ascending(found)
    && (forall i :: 0 <= i < |found| ==> found[i] < |refs| && Hit(ks, chunks, p, refs[found[i]]))
    && (forall k :: 0 <= k < |refs| && Hit(ks, chunks, p, refs[k]) ==> k in found)
  }

  function Picked(refs: seq<Ref>, found: seq<nat>): (r: seq<Ref>)
    requires forall i :: 0 <= i < |found| ==> found[i] < |refs|
    ensures |r| == |found| && forall i :: 0 <= i < |found| ==> r[i] == refs[found[i]]
  {
    seq(|found|, i requires 0 <= i < |found| => refs[found[i]])
  }

  lemma {:induction false} FoundAreHits(ks: Keys, chunks: Chunks, p: Row, refs: seq<Ref>, found: seq<nat>)
    requires AllIn(chunks, refs) && FoundAll(ks, chunks, p, refs, found)
    ensures Picked(refs, found) == Hits(ks, chunks, p, refs)
  {
    if refs != [] {
      hide FoundAll;
      var n := |refs| - 1;
      if Hit(ks, chunks, p, refs[n]) {
        FoundLast(ks, chunks, p, refs, found);
        var m := |found| - 1;
        FoundAreHits(ks, chunks, p, refs[..n], found[..m]);
        assert Picked(refs, found) == Picked(refs[..n], found[..m]) + [refs[n]];
      } else {
        FoundShorter(ks, chunks, p, refs, found);
        FoundAreHits(ks, chunks, p, refs[..n], found);
        assert Picked(refs, found) == Picked(refs[..n], found);
      }
    }
  }

  lemma {:induction false} FoundLast(ks: Keys, chunks: Chunks, p: Row, refs: seq<Ref>, found: seq<nat>)
    requires AllIn(chunks, refs) && FoundAll(ks, chunks, p, refs, found) && refs != []
    requires Hit(ks, chunks, p, refs[|refs| - 1])
    ensures found != [] && found[|found| - 1] == |refs| - 1
    ensures FoundAll(ks, chunks, p, refs[..|refs| - 1], found[..|found| - 1])
    ensures forall i :: 0 <= i < |found| ==> found[i] < |refs|
    ensures forall i :: 0 <= i < |found| - 1 ==> found[i] < |refs| - 1
  {
    var n, m := |refs| - 1, |found| - 1;
    var i :| 0 <= i < |found| && found[i] == n;
    AscendingLast(found, i);
    forall k | 0 <= k < n && Hit(ks, chunks, p, refs[..n][k])
      ensures k in found[..m]
    {
      assert Hit(ks, chunks, p, refs[k]);
      var j :| 0 <= j < |found| && found[j] == k;
      assert found[..m][j] == k;
    }
  }

  lemma {:induction false} FoundShorter(ks: Keys, chunks: Chunks, p: Row, refs: seq<Ref>, found: seq<nat>)
    requires AllIn(chunks, refs) && FoundAll(ks, chunks, p, refs, found) && refs != []
    requires !Hit(ks, chunks, p, refs[|refs| - 1])
    ensures FoundAll(ks, chunks, p, refs[..|refs| - 1], found)
    ensures forall i :: 0 <= i < |found| ==> found[i] < |refs| - 1
  {
    var n := |refs| - 1;
    forall k | 0 <= k < n && Hit(ks, chunks, p, refs[..n][k])
      ensures k in found
    {
      assert Hit(ks, chunks, p, refs[k]);
    }
  }

  // ---- pairs and their rendering ----

  predicate PairOk(chunk: seq<Row>, chunks: Chunks, x: Pair) {
    x.row < |chunk| && (x.src.From? ==> InChunks(chunks, x.src.ref))
  }

  predicate PairsOk(chunk: seq<Row>, chunks: Chunks, pairs: seq<Pair>) {
    forall i :: 0 <= i < |pairs| ==> PairOk(chunk, chunks, pairs[i])
  }

  function RenderOne(kind: JoinType, width: nat, chunk: seq<Row>, chunks: Chunks, x: Pair): Row
    requires PairOk(chunk, chunks, x)
  {
    if kind == Semi || kind == Anti then chunk[x.row]
    else chunk[x.row] + if x.src.From? then RowOf(chunks, x.src.ref) else Nulls(width)
  }

  function Render(kind: JoinType, width: nat, chunk: seq<Row>, chunks: Chunks, pairs: seq<Pair>): (r: seq<Row>)
    requires PairsOk(chunk, chunks, pairs)
    ensures |r| == |pairs|
    ensures forall i :: 0 <= i < |pairs| ==> r[i] == RenderOne(kind, width, chunk, chunks, pairs[i])
  {
    seq(|pairs|, i requires 0 <= i < |pairs| => RenderOne(kind, width, chunk, chunks, pairs[i]))
  }

  lemma {:induction false} RenderConcat(kind: JoinType, width: nat, chunk: seq<Row>, chunks: Chunks,
                                        a: seq<Pair>, b: seq<Pair>)
    requires PairsOk(chunk, chunks, a + b) && PairsOk(chunk, chunks, a) && PairsOk(chunk, chunks, b)
    ensures Render(kind, width, chunk, chunks, a + b)
         == Render(kind, width, chunk, chunks, a) + Render(kind, width, chunk, chunks, b)
  {
  }

  lemma {:induction false} RenderSplit(kind: JoinType, width: nat, chunk: seq<Row>, chunks: Chunks, pairs: seq<Pair>,
                                       i: nat, j: nat)
    requires PairsOk(chunk, chunks, pairs) && i <= j <= |pairs|
    ensures PairsOk(chunk, chunks, pairs[i..]) && PairsOk(chunk, chunks, pairs[i..j]) && PairsOk(chunk, chunks, pairs[j..])
    ensures Render(kind, width, chunk, chunks, pairs[i..])
         == Render(kind, width, chunk, chunks, pairs[i..j]) + Render(kind, width, chunk, chunks, pairs[j..])
  {
    hide PairOk, RenderOne;
    assert pairs[i..] == pairs[i..j] + pairs[j..];
    RenderConcat(kind, width, chunk, chunks, pairs[i..j], pairs[j..]);
  }

  function Pairs(r: nat, refs: seq<Ref>): (ps: seq<Pair>)
    ensures |ps| == |refs| && forall i :: 0 <= i < |refs| ==> ps[i] == Pair(r, From(refs[i]))
  {
    seq(|refs|, i requires 0 <= i < |refs| => Pair(r, From(refs[i])))
  }

  /** The pairs a probe row adds while it is probed. */
  function DirectPairs(kind: JoinType, r: nat, hits: seq<Ref>): seq<Pair> {
    match kind
    case Inner | LeftOuter => Pairs(r, hits)
    case Semi => if hits == [] then [] else [Pair(r, NoBuild)]
    case Anti => []
  }

  lemma {:induction false} DirectGrows(kind: JoinType, r: nat, hits: seq<Ref>, x: Ref)
    requires kind == Inner || kind == LeftOuter
    ensures DirectPairs(kind, r, hits + [x]) == DirectPairs(kind, r, hits) + [Pair(r, From(x))]
  {
  }

  /** The table over the non-NULL build rows. */
  ghost predicate TableOk(ks: Keys, hash: Key -> nat, chunks: Chunks, table: seq<Slot<Ref>>,
                          refs: seq<Ref>, ds: seq<nat>, own: seq<nat>) {
    && AllIn(chunks, refs)
    && Holds(table, Entries(ks, hash, chunks, refs), ds, own)
    && |refs| < |table| && |ds| == |refs| && |own| == |table|
  }

  ghost function Entries(ks: Keys, hash: Key -> nat, chunks: Chunks, refs: seq<Ref>): (es: seq<Entry<Ref>>)
    requires AllIn(chunks, refs)
    ensures |es| == |refs|
    ensures forall k :: 0 <= k < |refs| ==> es[k] == Entry(hash(ks.build(RowOf(chunks, refs[k]))), refs[k])
  {
    seq(|refs|, k requires 0 <= k < |refs| => Entry(hash(ks.build(RowOf(chunks, refs[k]))), refs[k]))
  }

  ghost predicate FoundTo(ks: Keys, hash: Key -> nat, chunks: Chunks, refs: seq<Ref>, ds: seq<nat>,
                          p: Row, found: seq<nat>, d: nat)
    requires AllIn(chunks, refs) && |ds| == |refs|
  {
    && Ascending(found)
    && (forall i :: 0 <= i < |found| ==>
          found[i] < |refs| && Hit(ks, chunks, p, refs[found[i]]) && ds[found[i]] < d)
    && (forall k :: 0 <= k < |refs| && Hit(ks, chunks, p, refs[k]) && ds[k] < d ==> k in found)
  }

  /** One probe step: whether the slot at distance `d` hits. */
  ghost predicate SlotHits(ks: Keys, hash: Key -> nat, chunks: Chunks, table: seq<Slot<Ref>>, p: Row, s: nat)
    requires s < |table|
  {
    && table[s].Used? && table[s].hash == hash(ks.probe(p))
    && InChunks(chunks, table[s].item) && Hit(ks, chunks, p, table[s].item)
  }

  lemma {:induction false} StepHit(ks: Keys, hash: Key -> nat, chunks: Chunks, table: seq<Slot<Ref>>,
                                   refs: seq<Ref>, ds: seq<nat>, own: seq<nat>, p: Row, found: seq<nat>, d: nat)
    returns (k: nat)
    requires TableOk(ks, hash, chunks, table, refs, ds, own) && d < |table|
    requires FoundTo(ks, hash, chunks, refs, ds, p, found, d)
    requires SlotHits(ks, hash, chunks, table, p, At(Home(hash(ks.probe(p)), |table|), d, |table|))
    ensures k < |refs| && refs[k] == table[At(Home(hash(ks.probe(p)), |table|), d, |table|)].item
    ensures FoundTo(ks, hash, chunks, refs, ds, p, found + [k], d + 1)
  {
    var es := Entries(ks, hash, chunks, refs);
    var h := hash(ks.probe(p));
    k := OwnerAt(table, es, ds, own, h, d);
    assert es[k].item == refs[k];
    var f := found + [k];
    forall i, j | 0 <= i < j < |f|
      ensures f[i] < f[j]
    {
      if j == |found| {
        OrderedAt(es, table, ds, own, k, f[i]);
      }
    }
    forall q | 0 <= q < |refs| && Hit(ks, chunks, p, refs[q]) && ds[q] < d + 1
      ensures q in f
    {
      if ds[q] == d {
        SameSeat(table, es, ds, own, q, k);
      } else {
        assert q in found;
      }
    }
  }

  lemma {:induction false} SlotInChunks(ks: Keys, hash: Key -> nat, chunks: Chunks, table: seq<Slot<Ref>>,
                                        refs: seq<Ref>, ds: seq<nat>, own: seq<nat>, p: Row, d: nat)
    requires TableOk(ks, hash, chunks, table, refs, ds, own) && d < |table|
    requires table[At(Home(hash(ks.probe(p)), |table|), d, |table|)].Used?
    ensures table[At(Home(hash(ks.probe(p)), |table|), d, |table|)].hash == hash(ks.probe(p)) ==>
              InChunks(chunks, table[At(Home(hash(ks.probe(p)), |table|), d, |table|)].item)
  {
    if table[At(Home(hash(ks.probe(p)), |table|), d, |table|)].hash == hash(ks.probe(p)) {
      var es := Entries(ks, hash, chunks, refs);
      var k := OwnerAt(table, es, ds, own, hash(ks.probe(p)), d);
      assert es[k].item == refs[k];
    }
  }

  lemma {:induction false} OrderedAt(es: seq<Entry<Ref>>, table: seq<Slot<Ref>>, ds: seq<nat>, own: seq<nat>, a: nat, b: nat)
    requires Holds(table, es, ds, own) && a < |es| && b < |es|
    requires es[a].hash == es[b].hash && ds[b] < ds[a]
    ensures b < a
  {
  }

  lemma {:induction false} SameSeat(table: seq<Slot<Ref>>, es: seq<Entry<Ref>>, ds: seq<nat>, own: seq<nat>, a: nat, b: nat)
    requires Holds(table, es, ds, own) && a < |es| && b < |es|
    requires es[a].hash == es[b].hash && ds[b] == ds[a]
    ensures b == a
  {
  }

  lemma {:induction false} StepMiss(ks: Keys, hash: Key -> nat, chunks: Chunks, table: seq<Slot<Ref>>,
                                    refs: seq<Ref>, ds: seq<nat>, own: seq<nat>, p: Row, found: seq<nat>, d: nat)
    requires TableOk(ks, hash, chunks, table, refs, ds, own) && d < |table|
    requires FoundTo(ks, hash, chunks, refs, ds, p, found, d)
    requires !SlotHits(ks, hash, chunks, table, p, At(Home(hash(ks.probe(p)), |table|), d, |table|))
    ensures FoundTo(ks, hash, chunks, refs, ds, p, found, d + 1)
  {
    var es := Entries(ks, hash, chunks, refs);
    forall q | 0 <= q < |refs| && Hit(ks, chunks, p, refs[q]) && ds[q] < d + 1
      ensures q in found
    {
      assert es[q].hash == hash(ks.probe(p)) && es[q].item == refs[q];
      assert table[At(Home(es[q].hash, |table|), ds[q], |table|)] == Used(es[q].hash, es[q].item);
      assert ds[q] != d;
    }
  }

  lemma {:induction false} AllFound(ks: Keys, hash: Key -> nat, chunks: Chunks, table: seq<Slot<Ref>>,
                                    refs: seq<Ref>, ds: seq<nat>, own: seq<nat>, p: Row, found: seq<nat>, d: nat)
    requires TableOk(ks, hash, chunks, table, refs, ds, own) && d < |table|
    requires FoundTo(ks, hash, chunks, refs, ds, p, found, d)
    requires table[At(Home(hash(ks.probe(p)), |table|), d, |table|)].Free?
    ensures FoundAll(ks, chunks, p, refs, found)
  {
    var es := Entries(ks, hash, chunks, refs);
    forall k | 0 <= k < |refs| && Hit(ks, chunks, p, refs[k])
      ensures k in found
    {
      assert es[k].hash == hash(ks.probe(p));
      FreeEnds(table, es, ds, own, d, k);
    }
  }

  lemma {:induction false} HitsOne(ks: Keys, chunks: Chunks, p: Row, refs: seq<Ref>, k: nat)
    requires AllIn(chunks, refs) && k < |refs| && Hit(ks, chunks, p, refs[k])
    ensures Hits(ks, chunks, p, refs) != []
  {
    if k < |refs| - 1 {
      HitsOne(ks, chunks, p, refs[..|refs| - 1], k);
    }
  }

  lemma {:induction false} PickedGrows(refs: seq<Ref>, found: seq<nat>, k: nat)
    requires forall i :: 0 <= i < |found| ==> found[i] < |refs|
    requires k < |refs|
    ensures Picked(refs, found + [k]) == Picked(refs, found) + [refs[k]]
  {
  }

  /** `hits` are the references that hit among those met before distance `d`. */
  ghost predicate Gathered(ks: Keys, hash: Key -> nat, chunks: Chunks, refs: seq<Ref>, ds: seq<nat>,
                           p: Row, hits: seq<Ref>, d: nat)
    requires AllIn(chunks, refs) && |ds| == |refs|
  {
    exists found :: FoundTo(ks, hash, chunks, refs, ds, p, found, d) && hits == Picked(refs, found)
  }

  lemma {:induction false} GatherNone(ks: Keys, hash: Key -> nat, chunks: Chunks, refs: seq<Ref>, ds: seq<nat>, p: Row)
    requires AllIn(chunks, refs) && |ds| == |refs|
    ensures Gathered(ks, hash, chunks, refs, ds, p, [], 0)
  {
    assert FoundTo(ks, hash, chunks, refs, ds, p, [], 0);
    assert Picked(refs, []) == [];
  }

  lemma {:induction false} GatherHit(ks: Keys, hash: Key -> nat, chunks: Chunks, table: seq<Slot<Ref>>,
                                     refs: seq<Ref>, ds: seq<nat>, own: seq<nat>, p: Row, hits: seq<Ref>, d: nat)
    requires TableOk(ks, hash, chunks, table, refs, ds, own) && d < |table|
    requires Gathered(ks, hash, chunks, refs, ds, p, hits, d)
    requires SlotHits(ks, hash, chunks, table, p, At(Home(hash(ks.probe(p)), |table|), d, |table|))
    ensures Gathered(ks, hash, chunks, refs, ds, p,
                     hits + [table[At(Home(hash(ks.probe(p)), |table|), d, |table|)].item], d + 1)
    ensures Hits(ks, chunks, p, refs) != []
  {
    hide Holds;
    var found :| FoundTo(ks, hash, chunks, refs, ds, p, found, d) && hits == Picked(refs, found);
    var k := StepHit(ks, hash, chunks, table, refs, ds, own, p, found, d);
    PickedGrows(refs, found, k);
    HitsOne(ks, chunks, p, refs, k);
  }

  lemma {:induction false} GatherMiss(ks: Keys, hash: Key -> nat, chunks: Chunks, table: seq<Slot<Ref>>,
                                      refs: seq<Ref>, ds: seq<nat>, own: seq<nat>, p: Row, hits: seq<Ref>, d: nat)
    requires TableOk(ks, hash, chunks, table, refs, ds, own) && d < |table|
    requires Gathered(ks, hash, chunks, refs, ds, p, hits, d)
    requires !SlotHits(ks, hash, chunks, table, p, At(Home(hash(ks.probe(p)), |table|), d, |table|))
    ensures Gathered(ks, hash, chunks, refs, ds, p, hits, d + 1)
  {
    hide Holds;
    var found :| FoundTo(ks, hash, chunks, refs, ds, p, found, d) && hits == Picked(refs, found);
    StepMiss(ks, hash, chunks, table, refs, ds, own, p, found, d);
  }

  lemma {:induction false} GatherAll(ks: Keys, hash: Key -> nat, chunks: Chunks, table: seq<Slot<Ref>>,
                                     refs: seq<Ref>, ds: seq<nat>, own: seq<nat>, p: Row, hits: seq<Ref>, d: nat)
    requires TableOk(ks, hash, chunks, table, refs, ds, own) && d < |table|
    requires Gathered(ks, hash, chunks, refs, ds, p, hits, d)
    requires table[At(Home(hash(ks.probe(p)), |table|), d, |table|)].Free?
    ensures hits == Hits(ks, chunks, p, refs)
  {
    hide Holds;
    var found :| FoundTo(ks, hash, chunks, refs, ds, p, found, d) && hits == Picked(refs, found);
    AllFound(ks, hash, chunks, table, refs, ds, own, p, found, d);
    FoundAreHits(ks, chunks, p, refs, found);
  }

  /** The references that a probe row finds in the table. */
  function ProbeHits(ks: Keys, chunks: Chunks, p: Row, refs: seq<Ref>): (h: seq<Ref>)
    requires AllIn(chunks, refs)
    ensures AllIn(chunks, h)
  {
    if AnyNull(ks.probe(p)) then [] else Hits(ks, chunks, p, refs)
  }

  lemma {:induction false} NullJoinsNone(ks: Keys, p: Row, build: seq<Row>)
    requires AnyNull(ks.probe(p))
    ensures Partners(ks, p, build) == []
  {
    if build != [] {
      NullJoinsNone(ks, p, build[..|build| - 1]);
    }
  }

  lemma {:induction false} ProbeFinds(ks: Keys, chunks: Chunks, p: Row)
    ensures var hits := ProbeHits(ks, chunks, p, RefsTo(ks, chunks, |chunks|, 0));
            RowsOf(chunks, hits) == Partners(ks, p, Flatten(chunks))
  {
    if AnyNull(ks.probe(p)) {
      NullJoinsNone(ks, p, Flatten(chunks));
    } else {
      HitsArePartners(ks, chunks, p, |chunks|, 0);
      RowsToFlatten(chunks, |chunks|);
      assert chunks[..|chunks|] == chunks;
    }
  }

  lemma {:induction false} PairsRendered(kind: JoinType, width: nat, chunks: Chunks, chunk: seq<Row>, r: nat, hits: seq<Ref>)
    requires r < |chunk| && AllIn(chunks, hits) && (kind == Inner || kind == LeftOuter)
    ensures PairsOk(chunk, chunks, Pairs(r, hits))
    ensures Render(kind, width, chunk, chunks, Pairs(r, hits)) == Paired(chunk[r], RowsOf(chunks, hits))
  {
  }

  /** The pairs of a probe row stand for what the row contributes at once. */
  lemma {:induction false} DirectRendered(kind: JoinType, ks: Keys, chunks: Chunks, chunk: seq<Row>, r: nat)
    requires r < |chunk|
    ensures var ps := DirectPairs(kind, r, ProbeHits(ks, chunks, chunk[r], RefsTo(ks, chunks, |chunks|, 0)));
            && PairsOk(chunk, chunks, ps)
            && Render(kind, ks.width, chunk, chunks, ps) == Direct(kind, ks, chunk[r], Flatten(chunks))
  {
    var refs := RefsTo(ks, chunks, |chunks|, 0);
    var hits := ProbeHits(ks, chunks, chunk[r], refs);
    var bs := Partners(ks, chunk[r], Flatten(chunks));
    ProbeFinds(ks, chunks, chunk[r]);
    hide Partners, RefsTo, Flatten, ProbeHits, AnyNull, Hits;
    match kind
    case Inner | LeftOuter =>
      PairsRendered(kind, ks.width, chunks, chunk, r, hits);
      hide Render, Pairs, PairsOk, RowsOf, AllIn;
    case Semi | Anti =>
  }

  lemma {:induction false} LateRendered(kind: JoinType, ks: Keys, chunks: Chunks, chunk: seq<Row>, r: nat)
    requires r < |chunk| && (kind == LeftOuter || kind == Anti)
    requires Partners(ks, chunk[r], Flatten(chunks)) == []
    ensures Render(kind, ks.width, chunk, chunks, [Pair(r, NoBuild)]) == Late(kind, ks, chunk[r], Flatten(chunks))
  {
  }

  lemma {:induction false} LateSnoc(kind: JoinType, ks: Keys, chunk: seq<Row>, r: nat, build: seq<Row>)
    requires r < |chunk|
    ensures Late(kind, ks, chunk[r], build) == [] ==>
      LateOut(kind, ks, chunk[..r + 1], build) == LateOut(kind, ks, chunk[..r], build)
    ensures LateOut(kind, ks, chunk[..r + 1], build)
         == LateOut(kind, ks, chunk[..r], build) + Late(kind, ks, chunk[r], build)
  {
    assert chunk[..r + 1][..r] == chunk[..r];
  }

  lemma {:induction false} LateNone(kind: JoinType, ks: Keys, build: seq<Row>)
    ensures LateOut(kind, ks, [], build) == []
  {
  }

  class HashJoin {
    const kind: JoinType
    const ks: Keys
    const hash: Key -> nat
    var buildInput: Chunks
    var probeInput: Chunks
    var buildChunks: Chunks
    var table: seq<Slot<Ref>>
    var built: bool
    var probeChunk: seq<Row>
    var pairs: seq<Pair>
    var cursor: nat
    var exhausted: bool
    ghost const build: seq<Row>
    ghost var refs: seq<Ref>
    ghost var ds: seq<nat>
    ghost var own: seq<nat>

    ghost predicate Valid()
      reads this
    {
      && cursor <= |pairs|
      && PairsOk(probeChunk, buildChunks, pairs)
      && (exhausted ==> probeInput == [])
      && (built ==> Ready())
      && (!built ==> pairs == [] && buildChunks == [] && Flatten(buildInput) == build && |build| <= TWO_32 / 4)
    }

    ghost predicate Ready()
      reads this
    {
      && Flatten(buildChunks) == build
      && refs == RefsTo(ks, buildChunks, |buildChunks|, 0)
      && TableOk(ks, hash, buildChunks, table, refs, ds, own)
    }

    /** What the operator has still to emit. */
    ghost function Remaining(): seq<Row>
      requires Valid()
      reads this
    {
      Render(kind, ks.width, probeChunk, buildChunks, pairs[cursor..])
      + ChunksOut(kind, ks, probeInput, build)
    }

    constructor (kind: JoinType, ks: Keys, hash: Key -> nat, buildSide: Chunks, probeSide: Chunks)
      requires |Flatten(buildSide)| <= TWO_32 / 4
      ensures Valid() && this.kind == kind && this.ks == ks
      ensures Remaining() == ChunksOut(kind, ks, probeSide, Flatten(buildSide))
    {
      this.kind, this.ks, this.hash := kind, ks, hash;
      buildInput, probeInput := buildSide, probeSide;
      buildChunks, table, built := [], [], false;
      probeChunk, pairs, cursor, exhausted := [], [], 0, false;
      build := Flatten(buildSide);
      refs, ds, own := [], [], [];
    }

    /** Reads the build side, counts its non-NULL keys and enters them in the table. */
    method BuildSide()
      requires Valid() && !built
      modifies this
      ensures Valid() && built && pairs == [] && cursor == old(cursor)
      ensures probeInput == old(probeInput) && exhausted == old(exhausted) && probeChunk == old(probeChunk)
    {
      hide Holds, Flatten, RefsTo, NextPow2;
      ReadBuild();
      var n := CountNonNull();
      var size := NextPow2(if n * 2 % TWO_32 > 1 then n * 2 % TWO_32 else 1);
      EnterAll(size);
      built := true;
    }

    method EnterAll(size: nat)
      requires |RefsTo(ks, buildChunks, |buildChunks|, 0)| < size
      modifies this`table, this`refs, this`ds, this`own
      ensures refs == RefsTo(ks, buildChunks, |buildChunks|, 0)
      ensures TableOk(ks, hash, buildChunks, table, refs, ds, own)
    {
      hide Holds;
      ghost var all := RefsTo(ks, buildChunks, |buildChunks|, 0);
      table := NoEntries(size);
      refs, ds, own := [], [], seq(size, _ => 0);
      EmptyHolds(table, own);
      assert Entries(ks, hash, buildChunks, refs) == [];
      var ci := 0;
      while ci < |buildChunks|
        invariant ci <= |buildChunks| && |table| == size
        invariant refs == RefsTo(ks, buildChunks, ci, 0)
        invariant TableOk(ks, hash, buildChunks, table, refs, ds, own)
      {
        EnterChunk(ci, all);
        ci := ci + 1;
      }
    }

    method ReadBuild()
      requires Valid() && !built
      modifies this`buildInput, this`buildChunks
      ensures Flatten(buildChunks) == build && buildInput == []
      ensures forall c :: 0 <= c < |buildChunks| ==> buildChunks[c] != []
    {
      while buildInput != []
        invariant Flatten(buildChunks) + Flatten(buildInput) == build
        invariant forall c :: 0 <= c < |buildChunks| ==> buildChunks[c] != []
        decreases |buildInput|
      {
        var chunk := buildInput[0];
        buildInput := buildInput[1..];
        if chunk != [] {
          FlattenSnoc(buildChunks, chunk);
          buildChunks := buildChunks + [chunk];
        }
      }
    }

    method CountNonNull() returns (n: nat)
      ensures n == |RefsTo(ks, buildChunks, |buildChunks|, 0)|
      ensures n <= |Flatten(buildChunks)|
    {
      n := 0;
      var ci := 0;
      while ci < |buildChunks|
        invariant ci <= |buildChunks|
        invariant n == |RefsTo(ks, buildChunks, ci, 0)| <= |RowsTo(buildChunks, ci, 0)|
      {
        var r := 0;
        while r < |buildChunks[ci]|
          invariant r <= |buildChunks[ci]|
          invariant n == |RefsTo(ks, buildChunks, ci, r)| <= |RowsTo(buildChunks, ci, r)|
        {
          if !AnyNull(ks.build(buildChunks[ci][r])) {
            n := n + 1;
          }
          r := r + 1;
        }
        ci := ci + 1;
      }
      RowsToFlatten(buildChunks, |buildChunks|);
      assert buildChunks[..|buildChunks|] == buildChunks;
    }

    method EnterChunk(ci: nat, ghost all: seq<Ref>)
      requires ci < |buildChunks| && refs == RefsTo(ks, buildChunks, ci, 0)
      requires TableOk(ks, hash, buildChunks, table, refs, ds, own)
      requires all == RefsTo(ks, buildChunks, |buildChunks|, 0) && |all| < |table|
      modifies this`table, this`refs, this`ds, this`own
      ensures refs == RefsTo(ks, buildChunks, ci + 1, 0) && |table| == old(|table|)
      ensures TableOk(ks, hash, buildChunks, table, refs, ds, own)
    {
      var r := 0;
      while r < |buildChunks[ci]|
        invariant r <= |buildChunks[ci]| && |table| == old(|table|)
        invariant refs == RefsTo(ks, buildChunks, ci, r)
        invariant TableOk(ks, hash, buildChunks, table, refs, ds, own)
      {
        RefsMonotone(ks, buildChunks, ci, r + 1);
        if !AnyNull(ks.build(buildChunks[ci][r])) {
          EnterRow(Ref(ci, r));
        }
        r := r + 1;
      }
    }

    method EnterRow(x: Ref)
      requires InChunks(buildChunks, x) && |refs| + 1 < |table|
      requires TableOk(ks, hash, buildChunks, table, refs, ds, own)
      modifies this`table, this`refs, this`ds, this`own
      ensures refs == old(refs) + [x] && |table| == old(|table|)
      ensures TableOk(ks, hash, buildChunks, table, refs, ds, own)
    {
      hide Holds;
      ghost var es := Entries(ks, hash, buildChunks, refs);
      var h := hash(ks.build(RowOf(buildChunks, x)));
      var slot;
      ghost var d;
      slot, d := SeekFree(table, h, es, ds, own);
      PlaceHolds(table, es, ds, own, h, x, d);
      assert Entries(ks, hash, buildChunks, refs + [x]) == es + [Entry(h, x)];
      table := table[slot := Used(h, x)];
      own := own[slot := |refs|];
      refs := refs + [x];
      ds := ds + [d];
    }

    /** Probes with row `r`: stops at a free slot, or at the first match for SEMI and ANTI. */
    method ProbeRow(chunk: seq<Row>, r: nat) returns (matched: bool)
      requires Ready() && r < |chunk|
      modifies this`pairs
      ensures var p := chunk[r];
              var hits := ProbeHits(ks, buildChunks, p, refs);
              && (matched <==> hits != [])
              && pairs == old(pairs) + DirectPairs(kind, r, hits)
    {
      hide Holds, Hits, RefsTo, Flatten, Gathered;
      var key := ks.probe(chunk[r]);
      matched := false;
      if AnyNull(key) {
        return;
      }
      ghost var p := chunk[r];
      ghost var es := Entries(ks, hash, buildChunks, refs);
      var h := hash(key);
      var slot := Home(h, |table|);
      ghost var free := MeetsFree(table, es, ds, own, slot);
      ghost var d := 0;
      ghost var hits: seq<Ref> := [];
      GatherNone(ks, hash, buildChunks, refs, ds, p);
      while table[slot].Used?
        invariant d <= free && slot == At(Home(h, |table|), d, |table|)
        invariant Gathered(ks, hash, buildChunks, refs, ds, p, hits, d)
        invariant matched <==> hits != []
        invariant kind == Semi || kind == Anti ==> !matched
        invariant pairs == old(pairs) + DirectPairs(kind, r, hits)
        decreases free - d
      {
        var e := table[slot];
        SlotInChunks(ks, hash, buildChunks, table, refs, ds, own, p, d);
        if e.hash == h && ks.build(RowOf(buildChunks, e.item)) == key {
          GatherHit(ks, hash, buildChunks, table, refs, ds, own, p, hits, d);
          matched := true;
          if kind == Inner || kind == LeftOuter {
            DirectGrows(kind, r, hits, e.item);
            pairs := pairs + [Pair(r, From(e.item))];
          } else {
            if kind == Semi {
              pairs := pairs + [Pair(r, NoBuild)];
            }
            return;
          }
          hits := hits + [e.item];
        } else {
          GatherMiss(ks, hash, buildChunks, table, refs, ds, own, p, hits, d);
        }
        slot := NextSlot(slot, |table|);
        d := d + 1;
      }
      GatherAll(ks, hash, buildChunks, table, refs, ds, own, p, hits, d);
    }

    /** Probes with every row of a chunk. */
    method ProbeAll(chunk: seq<Row>) returns (matched: seq<bool>)
      requires Ready() && pairs == []
      modifies this`pairs
      ensures PairsOk(chunk, buildChunks, pairs)
      ensures Render(kind, ks.width, chunk, buildChunks, pairs) == DirectOut(kind, ks, chunk, build)
      ensures |matched| == |chunk|
      ensures forall i :: 0 <= i < |chunk| ==> (matched[i] <==> Partners(ks, chunk[i], build) != [])
    {
      hide Holds, RefsTo, Flatten, DirectPairs, Direct, Partners, ProbeHits;
      matched := [];
      var r := 0;
      while r < |chunk|
        invariant r == |matched| <= |chunk|
        invariant PairsOk(chunk, buildChunks, pairs)
        invariant Render(kind, ks.width, chunk, buildChunks, pairs) == DirectOut(kind, ks, chunk[..r], build)
        invariant forall i :: 0 <= i < r ==> (matched[i] <==> Partners(ks, chunk[i], build) != [])
      {
        ghost var before := pairs;
        ghost var added := DirectPairs(kind, r, ProbeHits(ks, buildChunks, chunk[r], refs));
        var m := ProbeRow(chunk, r);
        ProbeFinds(ks, buildChunks, chunk[r]);
        DirectRendered(kind, ks, buildChunks, chunk, r);
        assert pairs == before + added;
        RenderConcat(kind, ks.width, chunk, buildChunks, before, added);
        assert chunk[..r + 1][..r] == chunk[..r];
        matched := matched + [m];
        r := r + 1;
      }
      assert chunk[..r] == chunk;
    }

    /** Adds the rows without a match, for LEFT OUTER and ANTI. */
    method AddUnmatched(chunk: seq<Row>, matched: seq<bool>)
      requires Ready() && PairsOk(chunk, buildChunks, pairs) && |matched| == |chunk|
      requires forall i :: 0 <= i < |chunk| ==> (matched[i] <==> Partners(ks, chunk[i], build) != [])
      modifies this`pairs
      ensures PairsOk(chunk, buildChunks, pairs)
      ensures Render(kind, ks.width, chunk, buildChunks, pairs)
           == old(Render(kind, ks.width, chunk, buildChunks, pairs)) + LateOut(kind, ks, chunk, build)
    {
      hide Holds, RefsTo, Flatten, Partners, RowOut, LateOut, AnyNull, Render;
      ghost var start := Render(kind, ks.width, chunk, buildChunks, pairs);
      if kind == LeftOuter || kind == Anti {
        var r := 0;
        LateNone(kind, ks, build);
        while r < |chunk|
          invariant r <= |chunk| && PairsOk(chunk, buildChunks, pairs)
          invariant Render(kind, ks.width, chunk, buildChunks, pairs) == start + LateOut(kind, ks, chunk[..r], build)
        {
          LateSnoc(kind, ks, chunk, r, build);
          if !matched[r] {
            LateRendered(kind, ks, buildChunks, chunk, r);
            Joined(start, LateOut(kind, ks, chunk[..r], build), Late(kind, ks, chunk[r], build));
            RenderConcat(kind, ks.width, chunk, buildChunks, pairs, [Pair(r, NoBuild)]);
            pairs := pairs + [Pair(r, NoBuild)];
          }
          r := r + 1;
        }
        assert chunk[..r] == chunk;
      } else {
        LateSilent(kind, ks, chunk, build);
      }
    }

    /** Replaces the pairs by those of a new probe chunk. */
    method ProbeChunk(chunk: seq<Row>)
      requires Ready()
      modifies this`pairs, this`cursor, this`probeChunk
      ensures cursor == 0 && PairsOk(probeChunk, buildChunks, pairs) && pairs[cursor..] == pairs
      ensures Render(kind, ks.width, probeChunk, buildChunks, pairs) == ChunkOut(kind, ks, chunk, build)
    {
      hide Holds, RefsTo, Flatten, DirectOut, LateOut;
      pairs := [];
      var matched := ProbeAll(chunk);
      AddUnmatched(chunk, matched);
      cursor := 0;
      probeChunk := chunk;
    }

    /** Takes the next non-empty probe chunk and finds its matches; false when there is none. */
    method LoadNextProbeChunk() returns (more: bool)
      requires Valid() && built && cursor == |pairs|
      modifies this
      ensures Valid() && built && Remaining() == old(Remaining())
      ensures more ==> |probeInput| < old(|probeInput|) && exhausted == old(exhausted)
      ensures !more ==> exhausted && probeInput == [] && cursor == |pairs|
    {
      hide Holds, RefsTo, Flatten, ChunkOut;
      while probeInput != []
        invariant Valid() && built && cursor == |pairs|
        invariant Remaining() == old(Remaining()) && exhausted == old(exhausted)
        invariant |probeInput| <= old(|probeInput|)
        decreases |probeInput|
      {
        var chunk := probeInput[0];
        ghost var left := Remaining();
        assert left == ChunkOut(kind, ks, chunk, build) + ChunksOut(kind, ks, probeInput[1..], build);
        probeInput := probeInput[1..];
        if chunk != [] {
          ProbeChunk(chunk);
          return true;
        }
        EmptyChunk(kind, ks, build);
      }
      exhausted := true;
      more := false;
    }

    /** Renders the next pairs, at most a chunk full. */
    method EmitOutputSlice() returns (out: seq<Row>)
      requires Valid() && built && cursor < |pairs|
      modifies this`cursor
      ensures Valid() && old(Remaining()) == out + Remaining()
      ensures 0 < |out| <= CHUNK_SIZE
    {
      hide Holds, RefsTo, Flatten;
      var remaining := |pairs| - cursor;
      var n := if CHUNK_SIZE < remaining then CHUNK_SIZE else remaining;
      RenderSplit(kind, ks.width, probeChunk, buildChunks, pairs, cursor, cursor + n);
      hide PairsOk, Render, ChunkOut;
      out := Render(kind, ks.width, probeChunk, buildChunks, pairs[cursor..cursor + n]);
      cursor := cursor + n;
    }

    /** The next chunk of output, or nothing once all of it has been emitted. */
    method Next() returns (out: Result)
      requires Valid()
      modifies this
      ensures Valid()
      ensures out.Some? ==> 0 < |out.rows| <= CHUNK_SIZE && old(Remaining()) == out.rows + Remaining()
      ensures out.None? ==> old(Remaining()) == [] == Remaining()
    {
      hide Holds, RefsTo, Flatten, ChunkOut;
      if !built {
        BuildSide();
      }
      while true
        invariant Valid() && built && Remaining() == old(Remaining())
        decreases |probeInput|, !exhausted
      {
        if cursor < |pairs| {
          var rows := EmitOutputSlice();
          return Some(rows);
        }
        if exhausted {
          return None;
        }
        var more := LoadNextProbeChunk();
      }
    }

    /** Pulls until the operator is exhausted, as its consumer does. */
    method Drain() returns (out: seq<Row>)
      requires Valid()
      modifies this
      ensures out == old(Remaining())
    {
      hide Holds, RefsTo, Flatten, ChunksOut, Render, AnyNull;
      out := [];
      ghost var all := Remaining();
      ghost var left := all;
      var got := Next();
      while got.Some?
        invariant Valid() && all == out + left
        invariant got.Some? ==> left == got.rows + Remaining() && |got.rows| > 0
        invariant got.None? ==> left == []
        decreases |left|, got.Some?
      {
        Joined(out, got.rows, Remaining());
        out := out + got.rows;
        left := Remaining();
        got := Next();
      }
    }
  }

  lemma {:induction false} Joined(a: seq<Row>, b: seq<Row>, c: seq<Row>)
    ensures a + (b + c) == (a + b) + c
  {
  }

  lemma {:induction false} EmptyChunk(kind: JoinType, ks: Keys, build: seq<Row>)
    ensures ChunkOut(kind, ks, [], build) == []
  {
  }

  /** The whole operator computes the nested-loop join of its two inputs. */
  method RunHashJoin(kind: JoinType, ks: Keys, hash: Key -> nat, buildSide: Chunks, probeSide: Chunks)
    returns (out: seq<Row>)
    requires |Flatten(buildSide)| <= TWO_32 / 4
    ensures multiset(out) == multiset(NestedLoop(kind, ks, Flatten(probeSide), Flatten(buildSide)))
    ensures kind != LeftOuter ==> out == NestedLoop(kind, ks, Flatten(probeSide), Flatten(buildSide))
  {
    var join := new HashJoin(kind, ks, hash, buildSide, probeSide);
    out := join.Drain();
    ChunksOutNested(kind, ks, probeSide, Flatten(buildSide));
  }

  lemma {:induction false} RefsMonotone(ks: Keys, chunks: Chunks, ci: nat, r: nat)
    requires UpTo(chunks, ci, r)
    ensures |RefsTo(ks, chunks, ci, r)| <= |RefsTo(ks, chunks, |chunks|, 0)|
    decreases |chunks| - ci, if ci < |chunks| then |chunks[ci]| - r else 0
  {
    if ci < |chunks| {
      if r < |chunks[ci]| {
        RefsMonotone(ks, chunks, ci, r + 1);
      } else {
        RefsMonotone(ks, chunks, ci + 1, 0);
      }
    }
  }
}
