/** What a join on key equality means: nested loops over the two inputs. */
module JoinSpec {
  import opened Values

  type Key = seq<Value>

  datatype JoinType = Inner | LeftOuter | Semi | Anti

  /** The key expressions of the two sides, and the width of a build row. */
  datatype Keys = Keys(probe: Row -> Key, build: Row -> Key, width: nat)

  predicate AnyNull(key: Key) {
    exists i :: 0 <= i < |key| && key[i].Null?
  }

  /** Keys join when they are equal and neither holds a NULL. */
  predicate Joins(ks: Keys, p: Row, b: Row) {
    ks.probe(p) == ks.build(b) && !AnyNull(ks.probe(p))
  }

  /** The build rows that join `p`, in build order. */
  function Partners(ks: Keys, p: Row, build: seq<Row>): (r: seq<Row>)
    ensures forall b :: b in r <==> b in build && Joins(ks, p, b)
  {
    if build == [] then []
    else
      var rest, last := build[..|build| - 1], build[|build| - 1];
      assert build == rest + [last];
      Partners(ks, p, rest) + if Joins(ks, p, last) then [last] else []
  }

  function Nulls(n: nat): (r: Row)
    ensures |r| == n && forall i :: 0 <= i < n ==> r[i] == Null
  {
    seq(n, _ => Null)
  }

  /** `p` followed by each of `bs`. */
  function Paired(p: Row, bs: seq<Row>): (r: seq<Row>)
    ensures |r| == |bs| && forall i :: 0 <= i < |bs| ==> r[i] == p + bs[i]
  {
    seq(|bs|, i requires 0 <= i < |bs| => p + bs[i])
  }

  /** What one probe row contributes. */
  function RowOut(kind: JoinType, ks: Keys, p: Row, build: seq<Row>): seq<Row> {
    var bs := Partners(ks, p, build);
    match kind
    case Inner => Paired(p, bs)
    case LeftOuter => if bs == [] then [p + Nulls(ks.width)] else Paired(p, bs)
    case Semi => if bs == [] then [] else [p]
    case Anti => if bs == [] then [p] else []
  }

  /** The nested-loop join. */
  function NestedLoop(kind: JoinType, ks: Keys, probe: seq<Row>, build: seq<Row>): seq<Row> {
    if probe == [] then []
    else NestedLoop(kind, ks, probe[..|probe| - 1], build) + RowOut(kind, ks, probe[|probe| - 1], build)
  }

  // ---- what the rows of a join are ----

  /** A build row has the key of `p`, and no column of it is NULL. */
  ghost predicate HasPartner(ks: Keys, p: Row, build: seq<Row>) {
    exists j :: 0 <= j < |build| && ks.probe(p) == ks.build(build[j]) && forall i :: 0 <= i < |ks.probe(p)| ==> ks.probe(p)[i] != Null
  }

  /** `x` is `p` followed by a build row with its key. */
  ghost predicate PairOf(ks: Keys, p: Row, build: seq<Row>, x: Row) {
    exists j :: 0 <= j < |build| && x == p + build[j] && ks.probe(p) == ks.build(build[j]) &&
                forall i :: 0 <= i < |ks.probe(p)| ==> ks.probe(p)[i] != Null
  }

  lemma {:induction false} PartnersCount(ks: Keys, p: Row, build: seq<Row>, b: Row)
    ensures multiset(Partners(ks, p, build))[b] == if Joins(ks, p, b) then multiset(build)[b] else 0
    decreases |build|
  {
    if build != [] {
      var n := |build| - 1;
      PartnersCount(ks, p, build[..n], b);
      assert build == build[..n] + [build[n]];
      assert Partners(ks, p, build) == Partners(ks, p, build[..n]) + if Joins(ks, p, build[n]) then [build[n]] else [];
      hide Joins, Partners;
    }
  }

  lemma {:induction false} PartnersMean(ks: Keys, p: Row, build: seq<Row>)
    ensures Partners(ks, p, build) != [] <==> HasPartner(ks, p, build)
    ensures forall x :: x in Paired(p, Partners(ks, p, build)) <==> PairOf(ks, p, build, x)
  {
    var bs := Partners(ks, p, build);
    if bs != [] {
      assert bs[0] in bs && Joins(ks, p, bs[0]);
      var j :| 0 <= j < |build| && build[j] == bs[0];
    }
    if HasPartner(ks, p, build) {
      var j :| 0 <= j < |build| && ks.probe(p) == ks.build(build[j]) && forall i :: 0 <= i < |ks.probe(p)| ==> ks.probe(p)[i] != Null;
      assert Joins(ks, p, build[j]) && build[j] in bs;
    }
    forall x
      ensures x in Paired(p, bs) <==> PairOf(ks, p, build, x)
    {
      if x in Paired(p, bs) {
        var i :| 0 <= i < |bs| && x == p + bs[i];
        assert bs[i] in bs && Joins(ks, p, bs[i]);
        var j :| 0 <= j < |build| && build[j] == bs[i];
      }
      if PairOf(ks, p, build, x) {
        var j :| 0 <= j < |build| && x == p + build[j] && ks.probe(p) == ks.build(build[j]) &&
                 forall i :: 0 <= i < |ks.probe(p)| ==> ks.probe(p)[i] != Null;
        assert Joins(ks, p, build[j]) && build[j] in bs;
        var i :| 0 <= i < |bs| && bs[i] == build[j];
        assert Paired(p, bs)[i] == x;
      }
    }
  }

  /** Whether a row that stands for `p` is `x`, by the kind of join. */
  ghost predicate Yields(kind: JoinType, ks: Keys, p: Row, build: seq<Row>, x: Row) {
    match kind
    case Inner => PairOf(ks, p, build, x)
    case LeftOuter => PairOf(ks, p, build, x) || (!HasPartner(ks, p, build) && x == p + Nulls(ks.width))
    case Semi => HasPartner(ks, p, build) && x == p
    case Anti => !HasPartner(ks, p, build) && x == p
  }

  lemma {:induction false} RowOutMeans(kind: JoinType, ks: Keys, p: Row, build: seq<Row>, x: Row)
    ensures x in RowOut(kind, ks, p, build) <==> Yields(kind, ks, p, build, x)
    ensures kind == Semi || kind == Anti ==>
              |RowOut(kind, ks, p, build)| == if (kind == Semi) == HasPartner(ks, p, build) then 1 else 0
  {
    PartnersMean(ks, p, build);
    hide PairOf, HasPartner, Partners;
    if Partners(ks, p, build) == [] {
      assert Paired(p, Partners(ks, p, build)) == [];
    }
  }

  /** A row is in the join exactly if some probe row yields it. */
  lemma {:induction false} NestedLoopMeans(kind: JoinType, ks: Keys, probe: seq<Row>, build: seq<Row>, x: Row)
    ensures x in NestedLoop(kind, ks, probe, build) <==> exists i :: 0 <= i < |probe| && Yields(kind, ks, probe[i], build, x)
    decreases |probe|
  {
    hide Yields, RowOut;
    if probe != [] {
      var n := |probe| - 1;
      NestedLoopMeans(kind, ks, probe[..n], build, x);
      RowOutMeans(kind, ks, probe[n], build, x);
      if i :| 0 <= i < |probe[..n]| && Yields(kind, ks, probe[..n][i], build, x) {
        assert Yields(kind, ks, probe[i], build, x);
      }
      if i :| 0 <= i < |probe| && Yields(kind, ks, probe[i], build, x) {
        if i < n {
          assert Yields(kind, ks, probe[..n][i], build, x);
        }
      }
    }
  }

  lemma {:induction false} SemiAntiRow(ks: Keys, p: Row, build: seq<Row>)
    ensures RowOut(Semi, ks, p, build) == if HasPartner(ks, p, build) then [p] else []
    ensures RowOut(Anti, ks, p, build) == if HasPartner(ks, p, build) then [] else [p]
  {
    hide HasPartner, Partners, PairOf;
    PartnersMean(ks, p, build);
  }

  /** SEMI keeps the probe rows that have a partner and ANTI the others, each as often as it occurs. */
  lemma {:induction false} SemiAntiCount(ks: Keys, probe: seq<Row>, build: seq<Row>, p: Row)
    ensures multiset(NestedLoop(Semi, ks, probe, build))[p] == if HasPartner(ks, p, build) then multiset(probe)[p] else 0
    ensures multiset(NestedLoop(Anti, ks, probe, build))[p] == if HasPartner(ks, p, build) then 0 else multiset(probe)[p]
    decreases |probe|
  {
    hide HasPartner, RowOut;
    if probe != [] {
      var n := |probe| - 1;
      SemiAntiCount(ks, probe[..n], build, p);
      assert probe == probe[..n] + [probe[n]];
      SemiAntiRow(ks, probe[n], build);
    }
  }

  /** A stream of chunks as one sequence of rows. */
  function Flatten(chunks: seq<seq<Row>>): seq<Row> {
    if chunks == [] then [] else chunks[0] + Flatten(chunks[1..])
  }

  /** What a probe row contributes as soon as it is probed. */
  function Direct(kind: JoinType, ks: Keys, p: Row, build: seq<Row>): seq<Row> {
    if kind == Anti || Partners(ks, p, build) == [] then [] else RowOut(kind, ks, p, build)
  }

  /** What it contributes after its whole chunk has been probed. */
  function Late(kind: JoinType, ks: Keys, p: Row, build: seq<Row>): seq<Row> {
    if (kind == LeftOuter || kind == Anti) && Partners(ks, p, build) == [] then RowOut(kind, ks, p, build) else []
  }

  function DirectOut(kind: JoinType, ks: Keys, probe: seq<Row>, build: seq<Row>): seq<Row> {
    if probe == [] then []
    else DirectOut(kind, ks, probe[..|probe| - 1], build) + Direct(kind, ks, probe[|probe| - 1], build)
  }

  function LateOut(kind: JoinType, ks: Keys, probe: seq<Row>, build: seq<Row>): seq<Row> {
    if probe == [] then []
    else LateOut(kind, ks, probe[..|probe| - 1], build) + Late(kind, ks, probe[|probe| - 1], build)
  }

  /** The output for one probe chunk: matches first, then the rows without a match. */
  function ChunkOut(kind: JoinType, ks: Keys, chunk: seq<Row>, build: seq<Row>): seq<Row> {
    DirectOut(kind, ks, chunk, build) + LateOut(kind, ks, chunk, build)
  }

  function ChunksOut(kind: JoinType, ks: Keys, chunks: seq<seq<Row>>, build: seq<Row>): seq<Row> {
    if chunks == [] then [] else ChunkOut(kind, ks, chunks[0], build) + ChunksOut(kind, ks, chunks[1..], build)
  }

  lemma {:induction false} NestedLoopConcat(kind: JoinType, ks: Keys, a: seq<Row>, b: seq<Row>, build: seq<Row>)
    ensures NestedLoop(kind, ks, a + b, build) == NestedLoop(kind, ks, a, build) + NestedLoop(kind, ks, b, build)
  {
    hide RowOut;
    if b == [] {
      assert a + b == a;
    } else {
      var n := |b| - 1;
      assert (a + b)[..|a| + n] == a + b[..n];
      NestedLoopConcat(kind, ks, a, b[..n], build);
    }
  }

  lemma {:induction false} LateSilent(kind: JoinType, ks: Keys, probe: seq<Row>, build: seq<Row>)
    requires kind == Inner || kind == Semi
    ensures LateOut(kind, ks, probe, build) == []
  {
    if probe != [] {
      LateSilent(kind, ks, probe[..|probe| - 1], build);
    }
  }

  lemma {:induction false} DirectIsNested(kind: JoinType, ks: Keys, probe: seq<Row>, build: seq<Row>)
    requires kind == Inner || kind == Semi
    ensures DirectOut(kind, ks, probe, build) == NestedLoop(kind, ks, probe, build)
  {
    if probe != [] {
      DirectIsNested(kind, ks, probe[..|probe| - 1], build);
      hide Partners;
      assert Direct(kind, ks, probe[|probe| - 1], build) == RowOut(kind, ks, probe[|probe| - 1], build);
    }
  }

  lemma {:induction false} AntiIsLate(ks: Keys, probe: seq<Row>, build: seq<Row>)
    ensures DirectOut(Anti, ks, probe, build) == []
    ensures LateOut(Anti, ks, probe, build) == NestedLoop(Anti, ks, probe, build)
  {
    if probe != [] {
      AntiIsLate(ks, probe[..|probe| - 1], build);
      hide Partners;
      assert Late(Anti, ks, probe[|probe| - 1], build) == RowOut(Anti, ks, probe[|probe| - 1], build);
    }
  }

  lemma {:induction false} OuterParts(ks: Keys, probe: seq<Row>, build: seq<Row>)
    ensures multiset(DirectOut(LeftOuter, ks, probe, build)) + multiset(LateOut(LeftOuter, ks, probe, build))
         == multiset(NestedLoop(LeftOuter, ks, probe, build))
  {
    hide Partners, RowOut;
    if probe != [] {
      OuterParts(ks, probe[..|probe| - 1], build);
      var p := probe[|probe| - 1];
      assert Direct(LeftOuter, ks, p, build) + Late(LeftOuter, ks, p, build) == RowOut(LeftOuter, ks, p, build);
    }
  }

  /** Chunk by chunk, the output is that of the nested loop; only a left join reorders it. */
  lemma {:induction false} ChunkOutNested(kind: JoinType, ks: Keys, chunk: seq<Row>, build: seq<Row>)
    ensures multiset(ChunkOut(kind, ks, chunk, build)) == multiset(NestedLoop(kind, ks, chunk, build))
    ensures kind != LeftOuter ==> ChunkOut(kind, ks, chunk, build) == NestedLoop(kind, ks, chunk, build)
  {
    hide DirectOut, LateOut, NestedLoop;
    match kind
    case Inner | Semi =>
      LateSilent(kind, ks, chunk, build);
      DirectIsNested(kind, ks, chunk, build);
    case LeftOuter => OuterParts(ks, chunk, build);
    case Anti => AntiIsLate(ks, chunk, build);
  }

  /** How the probe side is cut into chunks does not matter. */
  lemma {:induction false} ChunksOutNested(kind: JoinType, ks: Keys, chunks: seq<seq<Row>>, build: seq<Row>)
    ensures multiset(ChunksOut(kind, ks, chunks, build)) == multiset(NestedLoop(kind, ks, Flatten(chunks), build))
    ensures kind != LeftOuter ==>
      ChunksOut(kind, ks, chunks, build) == NestedLoop(kind, ks, Flatten(chunks), build)
  {
    hide NestedLoop, ChunkOut;
    if chunks != [] {
      ChunkOutNested(kind, ks, chunks[0], build);
      ChunksOutNested(kind, ks, chunks[1..], build);
      NestedLoopConcat(kind, ks, chunks[0], Flatten(chunks[1..]), build);
    } else {
      NestedEmpty(kind, ks, build);
    }
  }

  lemma {:induction false} NestedEmpty(kind: JoinType, ks: Keys, build: seq<Row>)
    ensures NestedLoop(kind, ks, [], build) == []
  {
  }
}
