/** An index over encoded keys, and how the catalog keeps a unique one unique. */
module EncodedIndexes {
  import opened Bytes
  import opened BTreeSpec
  import opened BTreeIndexFile
  import opened BTreeScan
  import opened IndexKeys

  type Vals = seq<Cell>

  /** The order of an index on these columns. */
  function Order(specs: seq<ColSpec>): Cmp<Vals> {
    (a: Vals, b: Vals) => CompareVals(specs, a, b)
  }

  /** No column of the key is NULL or missing. */
  predicate NullFree(specs: seq<ColSpec>, vals: Vals) {
    specs == [] || (vals != [] && !vals[0].Null? && NullFree(specs[1..], vals[1..]))
  }

  function NullFreeIn(specs: seq<ColSpec>): Vals -> bool {
    (vals: Vals) => NullFree(specs, vals)
  }

  /** Whether the flag before some column of an encoded key says NULL. */
  predicate Flagged(specs: seq<ColSpec>, key: seq<byte>)
    requires |key| == KeySize(specs)
  {
    specs != [] && (key[0] == 0 || Flagged(specs[1..], key[1 + specs[0].Size()..]))
  }

  /** The flags are looked at one after the other, at a running offset. */
  method HasNull(specs: seq<ColSpec>, key: seq<byte>) returns (r: bool)
    requires |key| == KeySize(specs)
    ensures r <==> Flagged(specs, key)
  {
    var off, i := 0, 0;
    while i < |specs|
      invariant i <= |specs| && off <= |key| && |key| - off == KeySize(specs[i..])
      invariant Flagged(specs, key) <==> Flagged(specs[i..], key[off..])
    {
      assert specs[i..][1..] == specs[i + 1..];
      var w := 1 + specs[i].Size();
      assert key[off..][w..] == key[off + w..];
      if key[off] == 0 {
        return true;
      }
      off := off + w;
      i := i + 1;
    }
    r := false;
  }

  /** The flags of an encoded key tell whether a column is NULL. */
  lemma {:induction false} FlagsTell(specs: seq<ColSpec>, vals: Vals)
    requires AllFit(specs, vals)
    ensures |EncodeKey(specs, vals)| == KeySize(specs)
    ensures Flagged(specs, EncodeKey(specs, vals)) <==> !NullFree(specs, vals)
  {
    EncodeKeySize(specs, vals);
    if specs != [] {
      var x, rest := if vals == [] then Null else vals[0], if vals == [] then [] else vals[1..];
      EncodeCellSize(specs[0], x);
      FlagsTell(specs[1..], rest);
      var w := 1 + specs[0].Size();
      assert EncodeKey(specs, vals)[w..] == EncodeKey(specs[1..], rest);
      assert EncodeKey(specs, vals)[0] == EncodeCell(specs[0], x)[0];
    }
  }

  lemma {:induction false} CutSame(spec: ColSpec, x: Cell, y: Cell)
    requires CutCell(spec, x) == CutCell(spec, y)
    ensures EncodeCell(spec, x) == EncodeCell(spec, y)
  {
  }

  lemma {:induction false} SameVals(specs: seq<ColSpec>, a: Vals, b: Vals)
    requires CompareVals(specs, a, b) == 0
    ensures EncodeKey(specs, a) == EncodeKey(specs, b)
  {
    if specs != [] {
      var x, y := if a == [] then Null else a[0], if b == [] then Null else b[0];
      var x', y' := CutCell(specs[0], x), CutCell(specs[0], y);
      CellOrder(x', y', x');
      CutSame(specs[0], x, y);
      SameVals(specs[1..], if a == [] then [] else a[1..], if b == [] then [] else b[1..]);
      hide EncodeCell;
    }
  }

  /** Keys are equal in the order of the index exactly if their bytes are equal. */
  lemma {:induction false} SameKeys(specs: seq<ColSpec>, a: Vals, b: Vals)
    requires AllFit(specs, a) && AllFit(specs, b)
    ensures CompareVals(specs, a, b) == 0 <==> EncodeKey(specs, a) == EncodeKey(specs, b)
  {
    if CompareVals(specs, a, b) == 0 {
      SameVals(specs, a, b);
    } else if EncodeKey(specs, a) == EncodeKey(specs, b) {
      KeyOrder(specs, a, b);
      KeyOrder(specs, a, a);
      ValsOrder(specs, a, a, a);
    }
  }

  // ---- the index ----

  ghost predicate KeysFit(specs: seq<ColSpec>, es: seq<Entry<Vals>>) {
    forall i :: 0 <= i < |es| ==> AllFit(specs, es[i].key)
  }

  /** An index on these columns. */
  ghost predicate IndexOn(specs: seq<ColSpec>, t: BTreeIndex<Vals>)
    reads t
  {
    t.Valid() && t.cmp == Order(specs) && t.nullFree == NullFreeIn(specs) && KeysFit(specs, t.Contents())
  }

  /** Some entry has the key with these bytes. */
  ghost predicate HasKey(specs: seq<ColSpec>, es: seq<Entry<Vals>>, key: seq<byte>) {
    exists i :: 0 <= i < |es| && EncodeKey(specs, es[i].key) == key
  }

  method CreateIndex(specs: seq<ColSpec>, isUnique: bool) returns (t: BTreeIndex<Vals>)
    requires NodeCapacity(KeySize(specs)) >= 1
    ensures IndexOn(specs, t) && fresh(t) && t.Contents() == [] && t.unique == isUnique
  {
    KeyOrderIsTotal(specs);
    hide NodeCapacity;
    t := new BTreeIndex(Order(specs), NodeCapacity(KeySize(specs)), isUnique, NullFreeIn(specs));
  }

  lemma {:induction false} PresentIs(specs: seq<ColSpec>, es: seq<Entry<Vals>>, vals: Vals)
    requires KeysFit(specs, es) && AllFit(specs, vals)
    ensures Present(Order(specs), es, vals) <==> HasKey(specs, es, EncodeKey(specs, vals))
  {
    hide CompareVals, EncodeKey, AllFit;
    forall i | 0 <= i < |es|
      ensures Order(specs)(es[i].key, vals) == 0 <==> EncodeKey(specs, es[i].key) == EncodeKey(specs, vals)
    {
      SameKeys(specs, es[i].key, vals);
    }
  }

  lemma {:induction false} FitAfter(specs: seq<ColSpec>, es: seq<Entry<Vals>>, e: Entry<Vals>)
    requires KeysFit(specs, es) && AllFit(specs, e.key)
    ensures KeysFit(specs, InsertAfter(Order(specs), es, e))
  {
    hide AllFit;
    if es != [] {
      FitAfter(specs, es[1..], e);
    }
  }

  /**
   * Inserts a key. A unique index refuses one whose flags show no NULL exactly if an entry has
   * the same bytes.
   */
  method InsertKey(specs: seq<ColSpec>, t: BTreeIndex<Vals>, vals: Vals, row: nat) returns (ok: bool)
    requires IndexOn(specs, t) && AllFit(specs, vals)
    modifies t
    ensures IndexOn(specs, t)
    ensures var key := EncodeKey(specs, vals);
            |key| == KeySize(specs) && (ok <==> !(t.unique && !Flagged(specs, key) && HasKey(specs, old(t.Contents()), key)))
    ensures t.Contents() == if ok then InsertAfter(Order(specs), old(t.Contents()), Entry(vals, row)) else old(t.Contents())
  {
    FlagsTell(specs, vals);
    PresentIs(specs, t.Contents(), vals);
    FitAfter(specs, t.Contents(), Entry(vals, row));
    hide NullFree, Present, HasKey, KeysFit, BTreeIndex.Valid, BTreeIndex.Contents, AllFit, EncodeKey, Flagged;
    ok := t.Insert(vals, row);
  }

  // ---- uniqueness ----

  /** No two entries have the same key without NULLs. */
  ghost predicate Unique(specs: seq<ColSpec>, es: seq<Entry<Vals>>) {
    forall i, j :: 0 <= i < |es| && 0 <= j < |es| && i != j && NullFree(specs, es[i].key) ==>
      EncodeKey(specs, es[i].key) != EncodeKey(specs, es[j].key)
  }

  lemma {:induction false} InsertPlace(cmp: Cmp<Vals>, es: seq<Entry<Vals>>, e: Entry<Vals>) returns (p: nat)
    ensures p <= |es| && InsertAfter(cmp, es, e) == es[..p] + [e] + es[p..]
  {
    p := 0;
    if es != [] && cmp(es[0].key, e.key) <= 0 {
      var q := InsertPlace(cmp, es[1..], e);
      p := q + 1;
      assert es[..p] == [es[0]] + es[1..][..q] && es[p..] == es[1..][q..];
    }
  }

  /** The key of a new entry is that of no other, unless both have a NULL. */
  ghost predicate NewKey(specs: seq<ColSpec>, es: seq<Entry<Vals>>, key: Vals) {
    forall i :: 0 <= i < |es| && (NullFree(specs, es[i].key) || NullFree(specs, key)) ==>
      EncodeKey(specs, es[i].key) != EncodeKey(specs, key)
  }

  lemma {:induction false} TakenIsNew(specs: seq<ColSpec>, es: seq<Entry<Vals>>, vals: Vals)
    requires KeysFit(specs, es) && AllFit(specs, vals)
    requires |EncodeKey(specs, vals)| == KeySize(specs)
    requires var key := EncodeKey(specs, vals); Flagged(specs, key) || !HasKey(specs, es, key)
    ensures NewKey(specs, es, vals)
  {
    FlagsTell(specs, vals);
    forall i | 0 <= i < |es|
      ensures EncodeKey(specs, es[i].key) == EncodeKey(specs, vals) ==> !NullFree(specs, es[i].key) && !NullFree(specs, vals)
    {
      FlagsTell(specs, es[i].key);
    }
    hide EncodeKey, Flagged, NullFree;
  }

  lemma {:induction false} UniqueAfter(specs: seq<ColSpec>, es: seq<Entry<Vals>>, e: Entry<Vals>)
    requires Unique(specs, es) && NewKey(specs, es, e.key)
    ensures Unique(specs, InsertAfter(Order(specs), es, e))
  {
    var p := InsertPlace(Order(specs), es, e);
    hide EncodeKey, NullFree, InsertAfter;
    var r := es[..p] + [e] + es[p..];
    forall i, j | 0 <= i < |r| && 0 <= j < |r| && i != j && NullFree(specs, r[i].key)
      ensures EncodeKey(specs, r[i].key) != EncodeKey(specs, r[j].key)
    {
      assert r[i] == if i < p then es[i] else if i == p then e else es[i - 1];
      assert r[j] == if j < p then es[j] else if j == p then e else es[j - 1];
    }
  }

  /** A unique index stays unique, whatever is inserted. */
  method InsertUnique(specs: seq<ColSpec>, t: BTreeIndex<Vals>, vals: Vals, row: nat) returns (ok: bool)
    requires IndexOn(specs, t) && AllFit(specs, vals) && t.unique && Unique(specs, t.Contents())
    modifies t
    ensures IndexOn(specs, t) && Unique(specs, t.Contents())
    ensures ok <==> !(NullFree(specs, vals) && HasKey(specs, old(t.Contents()), EncodeKey(specs, vals)))
    ensures t.Contents() == if ok then InsertAfter(Order(specs), old(t.Contents()), Entry(vals, row)) else old(t.Contents())
  {
    FlagsTell(specs, vals);
    ghost var before := t.Contents();
    ok := InsertKey(specs, t, vals, row);
    if ok {
      TakenIsNew(specs, before, vals);
      UniqueAfter(specs, before, Entry(vals, row));
    }
  }

  // ---- the check before an insert ----

  /** Goes on as long as the rows it hears are deleted. */
  function UntilLive(deleted: nat -> bool): Callback {
    (heard: seq<nat>) => heard == [] || deleted(heard[|heard| - 1])
  }

  lemma {:induction false} HeardLive(rows: seq<nat>, n: nat, deleted: nat -> bool)
    requires n <= |rows| && forall i :: 0 <= i < n ==> deleted(rows[i])
    ensures var h := Heard(rows, n, UntilLive(deleted));
            (h != [] && !deleted(h[|h| - 1])) <==> exists i :: 0 <= i < |rows| && !deleted(rows[i])
    decreases |rows| - n
  {
    if n < |rows| && deleted(rows[n]) {
      HeardLive(rows, n + 1, deleted);
    }
  }

  /** An entry of `row` has the key with these bytes. */
  ghost predicate RowHasKey(specs: seq<ColSpec>, es: seq<Entry<Vals>>, key: seq<byte>, row: nat) {
    exists i :: 0 <= i < |es| && es[i].row == row && EncodeKey(specs, es[i].key) == key
  }

  lemma {:induction false} RowHasKeyNext(specs: seq<ColSpec>, es: seq<Entry<Vals>>, key: seq<byte>, row: nat)
    requires es != []
    ensures RowHasKey(specs, es, key, row)
       <==> (es[0].row == row && EncodeKey(specs, es[0].key) == key) || RowHasKey(specs, es[1..], key, row)
  {
    hide EncodeKey;
    var rest := es[1..];
    if i :| 0 <= i < |es| && es[i].row == row && EncodeKey(specs, es[i].key) == key {
      if i > 0 {
        assert rest[i - 1] == es[i];
      }
    }
    if i :| 0 <= i < |rest| && rest[i].row == row && EncodeKey(specs, rest[i].key) == key {
      assert es[i + 1] == rest[i];
    }
  }

  lemma {:induction false} RowsWithKey(specs: seq<ColSpec>, es: seq<Entry<Vals>>, vals: Vals, row: nat)
    requires KeysFit(specs, es) && AllFit(specs, vals)
    ensures row in RowsIn(Order(specs), es, Bound(vals, true), Bound(vals, true))
       <==> RowHasKey(specs, es, EncodeKey(specs, vals), row)
  {
    if es != [] {
      RowsWithKey(specs, es[1..], vals, row);
      SameKeys(specs, es[0].key, vals);
      RowHasKeyNext(specs, es, EncodeKey(specs, vals), row);
      hide CompareVals, EncodeKey, AllFit, RowHasKey;
    }
  }

  lemma {:induction false} OneAtKey(specs: seq<ColSpec>, es: seq<Entry<Vals>>, vals: Vals)
    requires KeysFit(specs, es) && AllFit(specs, vals) && NullFree(specs, vals) && Unique(specs, es)
    ensures AtMostOne(Order(specs), es, Bound(vals, true))
  {
    FlagsTell(specs, vals);
    forall i, j | 0 <= i < j < |es|
      ensures Order(specs)(es[i].key, vals) != 0 || Order(specs)(es[j].key, vals) != 0
    {
      SameKeys(specs, es[i].key, vals);
      SameKeys(specs, es[j].key, vals);
      FlagsTell(specs, es[i].key);
      hide CompareVals, EncodeKey, AllFit, NullFree, Flagged;
    }
  }

  /** Some row that is not deleted has the key with these bytes. */
  ghost predicate LiveKey(specs: seq<ColSpec>, es: seq<Entry<Vals>>, key: seq<byte>, deleted: nat -> bool) {
    exists i :: 0 <= i < |es| && EncodeKey(specs, es[i].key) == key && !deleted(es[i].row)
  }

  lemma {:induction false} LiveRows(specs: seq<ColSpec>, es: seq<Entry<Vals>>, vals: Vals, deleted: nat -> bool)
    requires KeysFit(specs, es) && AllFit(specs, vals)
    ensures var rows := RowsIn(Order(specs), es, Bound(vals, true), Bound(vals, true));
            (exists i :: 0 <= i < |rows| && !deleted(rows[i])) <==> LiveKey(specs, es, EncodeKey(specs, vals), deleted)
  {
    var rows := RowsIn(Order(specs), es, Bound(vals, true), Bound(vals, true));
    hide RowsIn, EncodeKey, AllFit;
    if i :| 0 <= i < |rows| && !deleted(rows[i]) {
      RowsWithKey(specs, es, vals, rows[i]);
    }
    if i :| 0 <= i < |es| && EncodeKey(specs, es[i].key) == EncodeKey(specs, vals) && !deleted(es[i].row) {
      RowsWithKey(specs, es, vals, es[i].row);
      var k :| 0 <= k < |rows| && rows[k] == es[i].row;
    }
  }

  /** The look into a unique index before an insert finds exactly the live rows with the key. */
  method FindsLive(specs: seq<ColSpec>, t: BTreeIndex<Vals>, vals: Vals, deleted: nat -> bool) returns (found: bool)
    requires IndexOn(specs, t) && AllFit(specs, vals) && Unique(specs, t.Contents())
    ensures found <==> NullFree(specs, vals) && LiveKey(specs, t.Contents(), EncodeKey(specs, vals), deleted)
  {
    if !NullFree(specs, vals) {
      return false;
    }
    var b := Bound(vals, true);
    OneAtKey(specs, t.Contents(), vals);
    LiveRows(specs, t.Contents(), vals, deleted);
    HeardLive(RowsIn(Order(specs), t.Contents(), b, b), 0, deleted);
    hide *;
    var seen := RangeScan(t, b, b, UntilLive(deleted));
    found := seen != [] && !deleted(seen[|seen| - 1]);
  }

  /**
   * The check lets a key pass that the index then refuses, exactly if the key is there for a
   * deleted row: a deletion does not take entries out of the index.
   */
  lemma {:induction false} PassedThenRefused(specs: seq<ColSpec>, es: seq<Entry<Vals>>, vals: Vals, deleted: nat -> bool)
    requires NullFree(specs, vals) && Unique(specs, es) && KeysFit(specs, es) && AllFit(specs, vals)
    ensures var key := EncodeKey(specs, vals);
            (!LiveKey(specs, es, key, deleted) && HasKey(specs, es, key) <==>
             exists i :: 0 <= i < |es| && EncodeKey(specs, es[i].key) == key && deleted(es[i].row))
  {
    var key := EncodeKey(specs, vals);
    FlagsTell(specs, vals);
    forall i, j | 0 <= i < |es| && 0 <= j < |es| && EncodeKey(specs, es[i].key) == key == EncodeKey(specs, es[j].key)
      ensures i == j
    {
      FlagsTell(specs, es[i].key);
    }
  }
}
