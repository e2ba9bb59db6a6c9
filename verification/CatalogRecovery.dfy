/** Recovery: `load` rebuilds every table from what a crash left on the disk. */
module CatalogRecovery {
  import opened Options
  import opened Bytes
  import opened Values
  import opened RowStore
  import opened CatalogLog
  import opened CatalogRun
  import T = Tables
  import W = WalCodec
  import R = WalRoundTrip
  import L = WalTail

  type Records = seq<(nat, W.Record)>

  /**
   * A table as a crash leaves it: sealed rows and tombstones are complete, the columns of
   * the write buffer may each hold any number of values beyond those last flushed, also
   * values of a statement that was not finished or was refused.
   */
  datatype Image = Image(schema: Schema, sealed: seq<Row>, torn: T.Columns, dead: set<nat>, lsn: nat, ckRows: nat)

  ghost predicate CrashOf(t: Tab, img: Image) {
    && img.schema == t.schema && img.dead == t.view.dead && img.lsn == t.lsn && img.ckRows == t.ckRows
    && t.base <= |t.view.rows| && img.sealed == t.view.rows[..t.base]
    && |img.torn| == |t.schema|
    && forall c :: 0 <= c < |t.schema| ==> TornColumn(t, img.torn[c], c)
  }

  /** A column of the write buffer that has kept at least the flushed rows. */
  ghost predicate TornColumn(t: Tab, col: seq<Value>, c: nat) {
    && t.flushed <= |col| && t.base + t.flushed <= |t.view.rows|
    && forall i :: 0 <= i < t.flushed ==> c < |t.view.rows[t.base + i]| && col[i] == t.view.rows[t.base + i][c]
  }

  function Get<A>(m: map<Name, A>, n: Name): Option<A> {
    if n in m then Some(m[n]) else None
  }

  // ---- what load does to one table ----

  function EmptyImage(schema: Schema): Image {
    Image(schema, [], T.NoRows(|schema|), {}, 0, 0)
  }

  function Open1(n: Name, img: Option<Image>, r: (nat, W.Record)): Option<Image> {
    if img.None? && r.1.CreateTable? && r.1.table == n then Some(EmptyImage(KindsOf(r.1.schema))) else img
  }

  function Opened(n: Name, img: Option<Image>, rs: Records): Option<Image> {
    if rs == [] then img else Open1(n, Opened(n, img, rs[..|rs| - 1]), rs[|rs| - 1])
  }

  function Eff1(n: Name, ck: Ck, r: (nat, W.Record)): Ck {
    if r.1.SegmentFlush? && r.1.table == n && r.0 > ck.lsn then Ck(r.0, r.1.sealedRows) else ck
  }

  function EffOf(n: Name, ck: Ck, rs: Records): Ck {
    if rs == [] then ck else Eff1(n, EffOf(n, ck, rs[..|rs| - 1]), rs[|rs| - 1])
  }

  /** Cuts every column of the write buffer to the rows of the checkpoint. */
  function Truncated(img: Image, target: nat): Tab {
    var base := |img.sealed|;
    var m := if target > base then target - base else 0;
    Tab(img.schema, Store(img.sealed + T.RowsOf(img.torn, m), img.dead), base, m, img.lsn, img.ckRows)
  }

  function Redo(env: Env, t: Tab, r: W.Record): Tab {
    match r
    case Insert(_, _, rows) => TabInsert(env, t, rows)
    case Delete(_, ids) => TabDelete(t, ids)
    case Update(_, ids, _, rows) => TabInsert(env, TabDelete(t, ids), rows)
    case _ => t
  }

  function Replay1(env: Env, n: Name, lsn: nat, t: Tab, r: (nat, W.Record)): Tab {
    if r.1.table != n || r.0 < lsn then t else Redo(env, t, r.1)
  }

  function Replayed(env: Env, n: Name, lsn: nat, t: Tab, rs: Records): Tab {
    if rs == [] then t else Replay1(env, n, lsn, Replayed(env, n, lsn, t, rs[..|rs| - 1]), rs[|rs| - 1])
  }

  /** A record that is replayed and whose rows its table refuses: the load ends with an error. */
  predicate Refuses(n: Name, schema: Schema, lsn: nat, r: (nat, W.Record)) {
    r.0 >= lsn && !RecordFits(schema, n, r.1)
  }

  /** Load gets through the log of a table. */
  ghost predicate Loads(n: Name, img: Option<Image>, rs: Records) {
    var o := Opened(n, img, rs);
    o.Some? ==>
      var e := EffOf(n, Ck(o.value.lsn, o.value.ckRows), rs);
      forall i :: 0 <= i < |rs| ==> !Refuses(n, o.value.schema, e.lsn, rs[i])
  }

  function LoadTab(env: Env, n: Name, img: Image, rs: Records): Tab {
    var e := EffOf(n, Ck(img.lsn, img.ckRows), rs);
    Checkpointed(Replayed(env, n, e.lsn, Truncated(img, e.rows), rs), 0)
  }

  function LoadOne(env: Env, n: Name, img: Option<Image>, rs: Records): Option<Tab> {
    var o := Opened(n, img, rs);
    if o.Some? then Some(LoadTab(env, n, o.value, rs)) else None
  }

  // ---- load ----

  method OpenTables(images: map<Name, Image>, rs: Records) returns (found: map<Name, Image>)
    ensures forall n :: Get(found, n) == Opened(n, Get(images, n), rs)
  {
    hide EmptyImage;
    found := images;
    var k := 0;
    while k < |rs|
      invariant k <= |rs| && forall n :: Get(found, n) == Opened(n, Get(images, n), rs[..k])
    {
      assert rs[..k + 1][..k] == rs[..k];
      var r := rs[k].1;
      ghost var before := found;
      if r.CreateTable? && r.table !in found {
        found := found[r.table := EmptyImage(KindsOf(r.schema))];
      }
      assert forall n :: Get(found, n) == Open1(n, Get(before, n), rs[k]);
      k := k + 1;
    }
    assert rs[..k] == rs;
  }

  method Checkpoints(found: map<Name, Image>, rs: Records) returns (lsns: map<Name, Ck>)
    ensures lsns.Keys == found.Keys
    ensures forall n :: n in found ==> lsns[n] == EffOf(n, Ck(found[n].lsn, found[n].ckRows), rs)
  {
    lsns := map n | n in found :: Ck(found[n].lsn, found[n].ckRows);
    var k := 0;
    while k < |rs|
      invariant k <= |rs| && lsns.Keys == found.Keys
      invariant forall n :: n in found ==> lsns[n] == EffOf(n, Ck(found[n].lsn, found[n].ckRows), rs[..k])
    {
      assert rs[..k + 1][..k] == rs[..k];
      var r := rs[k];
      ghost var before := lsns;
      if r.1.SegmentFlush? && r.1.table in lsns && r.0 > lsns[r.1.table].lsn {
        lsns := lsns[r.1.table := Ck(r.0, r.1.sealedRows)];
      }
      assert forall n :: n in found ==> lsns[n] == Eff1(n, before[n], r);
      k := k + 1;
    }
    assert rs[..k] == rs;
  }

  /** Replays one record of a table, unless the table refuses its rows. */
  method ReplayOne(env: Env, t: Tab, r: W.Record) returns (ok: bool, t': Tab)
    ensures ok <==> RecordFits(t.schema, r.table, r)
    ensures t'.schema == t.schema && (ok ==> t' == Redo(env, t, r))
  {
    hide TabInsert, TabDelete, T.RowsFit;
    t' := t;
    if r.Update? || r.Delete? {
      KeepsSchema(env, t, r.ids, []);
      t' := TabDelete(t, r.ids);
    }
    if r.Insert? || r.Update? {
      if !T.RowsFit(t'.schema, r.rows) {
        return false, t';
      }
      KeepsSchema(env, t', [], r.rows);
      t' := TabInsert(env, t', r.rows);
    }
    ok := true;
  }

  /** Replays the log in order, up to the first record whose rows are refused. */
  method ReplayRecords(env: Env, first: map<Name, Tab>, lsns: map<Name, Ck>, rs: Records)
    returns (ok: bool, tables: map<Name, Tab>)
    requires lsns.Keys == first.Keys
    ensures ok <==> forall i, n :: 0 <= i < |rs| && n in first ==> !Refuses(n, first[n].schema, lsns[n].lsn, rs[i])
    ensures tables.Keys == first.Keys
    ensures ok ==> forall n :: n in first ==> tables[n] == Replayed(env, n, lsns[n].lsn, first[n], rs)
  {
    hide Redo, T.RowsFit, RecordFits;
    tables := first;
    var k := 0;
    while k < |rs|
      invariant k <= |rs| && tables.Keys == first.Keys
      invariant forall n :: n in first ==> tables[n].schema == first[n].schema
      invariant forall n :: n in first ==> tables[n] == Replayed(env, n, lsns[n].lsn, first[n], rs[..k])
      invariant forall i, n :: 0 <= i < k && n in first ==> !Refuses(n, first[n].schema, lsns[n].lsn, rs[i])
    {
      assert rs[..k + 1][..k] == rs[..k];
      var r := rs[k].1;
      ghost var before := tables;
      if !r.CreateTable? && !r.SegmentFlush? && r.table in tables && rs[k].0 >= lsns[r.table].lsn {
        var t;
        ok, t := ReplayOne(env, tables[r.table], r);
        if !ok {
          assert Refuses(r.table, first[r.table].schema, lsns[r.table].lsn, rs[k]);
          return;
        }
        tables := tables[r.table := t];
      }
      forall n | n in first
        ensures !Refuses(n, first[n].schema, lsns[n].lsn, rs[k])
        ensures tables[n] == Replay1(env, n, lsns[n].lsn, before[n], rs[k])
      {
        Inert(env, before[n], r, n);
      }
      k := k + 1;
    }
    assert rs[..k] == rs;
    ok := true;
  }

  lemma {:induction false} Inert(env: Env, t: Tab, r: W.Record, n: Name)
    ensures r.CreateTable? || r.SegmentFlush? ==> Redo(env, t, r) == t && RecordFits(t.schema, n, r)
    ensures r.table != n ==> RecordFits(t.schema, n, r)
  {
  }

  lemma {:induction false} KeepsSchema(env: Env, t: Tab, ids: seq<nat>, rows: seq<Row>)
    ensures TabDelete(t, ids).schema == t.schema && TabInsert(env, t, rows).schema == t.schema
  {
  }

  /**
   * Creates missing tables, finds checkpoints, cuts the tables there and replays the rest of the
   * log. It fails exactly if a table refuses the rows of a record that is replayed.
   */
  method Load(env: Env, images: map<Name, Image>, rs: Records) returns (ok: bool, tables: map<Name, Tab>)
    ensures ok <==> forall n :: Loads(n, Get(images, n), rs)
    ensures ok ==> forall n :: Get(tables, n) == LoadOne(env, n, Get(images, n), rs)
  {
    hide Opened, EffOf, Replayed, Truncated, Checkpointed, Refuses;
    var found := OpenTables(images, rs);
    var lsns := Checkpoints(found, rs);
    var first := map n | n in found :: Truncated(found[n], lsns[n].rows);
    forall n | n in found
      ensures first[n].schema == found[n].schema
    {
      CutSchema(found[n], lsns[n].rows);
    }
    var replayed;
    ok, replayed := ReplayRecords(env, first, lsns, rs);
    tables := map n | n in replayed :: Checkpointed(replayed[n], 0);
    forall n
      ensures Loads(n, Get(images, n), rs) <==>
                (n in found ==> forall i :: 0 <= i < |rs| ==> !Refuses(n, first[n].schema, lsns[n].lsn, rs[i]))
      ensures ok ==> Get(tables, n) == LoadOne(env, n, Get(images, n), rs)
    {
      assert Get(found, n) == Opened(n, Get(images, n), rs);
    }
    if ok {
      forall n
        ensures Loads(n, Get(images, n), rs)
      {
      }
    }
  }

  lemma {:induction false} CutSchema(img: Image, rows: nat)
    ensures Truncated(img, rows).schema == img.schema
  {
  }
}
