/** What the statements mean to their caller: which values a created column takes, and what becomes of the rows. */
module CatalogStatements {
  import opened Options
  import opened Bytes
  import opened Values
  import opened RowStore
  import opened CatalogLog
  import opened CatalogRun
  import opened CatalogRecovery
  import opened RecoveryExact
  import C = Catalogs
  import P = ColumnPages
  import F = ColumnFiles
  import T = Tables
  import W = WalCodec

  // ---- what a column takes ----

  /** A column declared so takes NULL if it is nullable, and values of its type, strings up to its length. */
  ghost predicate Takes(col: W.Column, v: Value) {
    match v
    case Null => col.nullable
    case Int32(_) => col.code == INT32
    case Int64(_) => col.code == INT64
    case Double(_) => col.code == DOUBLE
    case Bool(_) => col.code == BOOL
    case Date(_) => col.code == DATE
    case Timestamp(_) => col.code == TIMESTAMP
    case Str(s) => col.code == VARCHAR && |s| <= col.maxLen
  }

  /** Every row has one value per column, and the column takes it. */
  ghost predicate AllTaken(cols: seq<W.Column>, rows: seq<Row>) {
    && (forall r :: 0 <= r < |rows| ==> |rows[r]| == |cols|)
    && (forall r, c :: 0 <= r < |rows| && 0 <= c < |cols| ==> Takes(cols[c], rows[r][c]))
  }

  /** A page has room for one value of the column, with its NULL bit if it has one. */
  ghost predicate PageHolds(col: W.Column) {
    && P.TypeSize(col.code, col.maxLen) > 0
    && P.COL_PAGE_HEADER_SIZE + (if col.nullable then 1 else 0) + P.TypeSize(col.code, col.maxLen) <= P.PAGE_PAYLOAD_SIZE
  }

  ghost predicate PagesHold(cols: seq<W.Column>) {
    cols != [] && forall c :: 0 <= c < |cols| ==> PageHolds(cols[c])
  }

  /** A slot of the column is just wide enough for the bytes of the values it takes. */
  lemma {:induction false} SlotWidth(col: W.Column, v: Value)
    requires PageHolds(col) && Takes(col, v)
    ensures |W.EncPlain(v)| <= P.TypeSize(col.code, col.maxLen)
    ensures !v.Null? && (v.Str? ==> |v.s| == col.maxLen) ==> |W.EncPlain(v)| == P.TypeSize(col.code, col.maxLen)
  {
  }

  lemma {:induction false} ColumnTakes(cols: seq<W.Column>, c: nat, v: Value)
    requires c < |cols| && PageHolds(cols[c])
    ensures F.Accepts(KindsOf(cols)[c], v) <==> Takes(cols[c], v)
  {
    var col := cols[c];
    P.CapacityExact(col.code, col.nullable, col.maxLen, 1);
    hide P.PageCapacity;
  }

  lemma {:induction false} SchemaTakes(cols: seq<W.Column>, rows: seq<Row>)
    requires PagesHold(cols)
    ensures T.RowsFit(KindsOf(cols), rows) <==> AllTaken(cols, rows)
  {
    hide Takes, F.Accepts, PageHolds;
    forall r, c | 0 <= r < |rows| && 0 <= c < |cols| && c < |rows[r]|
      ensures F.Accepts(KindsOf(cols)[c], rows[r][c]) <==> Takes(cols[c], rows[r][c])
    {
      ColumnTakes(cols, c, rows[r][c]);
    }
  }

  // ---- what a statement does ----

  /** The tables other than `n` are the same. */
  ghost predicate OthersStay(c: Cat, d: Cat, n: Name) {
    forall m :: m != n ==> (m in d.tables <==> m in c.tables) && (m in c.tables ==> d.tables[m] == c.tables[m])
  }

  /** `b` has the rows `more` after those of `a`, and the same rows are dead. */
  ghost predicate Appended(a: Store, b: Store, more: seq<Row>) {
    b.rows == a.rows + more && forall id :: 0 <= id < |b.rows| ==> (id in b.dead <==> id in a.dead)
  }

  /** The rows stay, and those named by `ids` are dead too. */
  ghost predicate Buried(a: Store, b: Store, ids: seq<nat>) {
    b.rows == a.rows && forall id :: 0 <= id < |a.rows| ==> (id in b.dead <==> id in a.dead || id in ids)
  }

  /** Both, one after the other. */
  ghost predicate Replaced(a: Store, b: Store, ids: seq<nat>, more: seq<Row>) {
    && b.rows == a.rows + more
    && forall id :: 0 <= id < |b.rows| ==> (id in b.dead <==> id in a.dead || (id in ids && id < |a.rows|))
  }

  /** An insert into a table with these columns: rows that are taken are appended, and no other row gets in. */
  ghost predicate InsertAnswers(env: Env, c: Cat, n: Name, cols: seq<W.Column>, rows: seq<Row>)
    requires n in c.tables
  {
    var d := Step(env, c, InsertRows(n, rows));
    && n in d.tables && OthersStay(c, d, n)
    && (AllTaken(cols, rows) ==>
          && !d.refused && Appended(c.tables[n].view, d.tables[n].view, rows)
          && (rows != [] ==> |d.log| > |c.log| && d.log[..|c.log|] == c.log && Inserts(d.log[|c.log|], n, rows)))
    && (!AllTaken(cols, rows) ==> d.tables[n] == c.tables[n] && (d.refused || d.log == c.log))
  }

  ghost predicate Inserts(r: W.Record, n: Name, rows: seq<Row>) {
    r.Insert? && r.table == n && r.rows == rows
  }

  ghost predicate Updates(r: W.Record, n: Name, ids: seq<nat>, rows: seq<Row>) {
    r.Update? && r.table == n && r.ids == ids && r.rows == rows
  }

  /** So it is with an update of some rows, which are then dead. */
  ghost predicate UpdateAnswers(env: Env, c: Cat, n: Name, cols: seq<W.Column>, ids: seq<nat>, rows: seq<Row>)
    requires n in c.tables
  {
    var d := Step(env, c, UpdateRows(n, ids, rows));
    && n in d.tables && OthersStay(c, d, n)
    && (AllTaken(cols, rows) ==>
          && !d.refused && Replaced(c.tables[n].view, d.tables[n].view, ids, rows)
          && |d.log| > |c.log| && d.log[..|c.log|] == c.log && Updates(d.log[|c.log|], n, ids, rows))
    && (!AllTaken(cols, rows) ==>
          if d.refused then Buried(c.tables[n].view, d.tables[n].view, ids) else d.tables[n] == c.tables[n] && d.log == c.log)
  }

  lemma {:induction false} TabInsertAppends(env: Env, t: Tab, rows: seq<Row>)
    ensures Appended(t.view, TabInsert(env, t, rows).view, rows)
  {
  }

  lemma {:induction false} TabDeleteBuries(t: Tab, ids: seq<nat>)
    ensures Buried(t.view, TabDelete(t, ids).view, ids)
  {
  }

  lemma {:induction false} TabUpdateReplaces(env: Env, t: Tab, ids: seq<nat>, rows: seq<Row>)
    ensures Replaced(t.view, TabInsert(env, TabDelete(t, ids), rows).view, ids, rows)
  {
    TabDeleteBuries(t, ids);
    TabInsertAppends(env, TabDelete(t, ids), rows);
    BeyondStay(t, ids);
    hide TabInsert, TabDelete;
  }

  lemma {:induction false} BeyondStay(t: Tab, ids: seq<nat>)
    ensures forall id :: id >= |t.view.rows| ==> (id in TabDelete(t, ids).view.dead <==> id in t.view.dead)
  {
  }

  /** Rows that fit can be written to the log. */
  lemma {:induction false} FitWritable(schema: Schema, rows: seq<Row>)
    requires T.RowsFit(schema, rows)
    ensures Writable(schema, rows)
  {
  }

  lemma {:induction false} InsertStep(env: Env, c: Cat, n: Name, cols: seq<W.Column>, rows: seq<Row>)
    requires n in c.tables && c.tables[n].schema == KindsOf(cols) && PagesHold(cols) && !c.refused
    ensures InsertAnswers(env, c, n, cols, rows)
  {
    SchemaTakes(cols, rows);
    var t := c.tables[n];
    if T.RowsFit(t.schema, rows) {
      FitWritable(t.schema, rows);
    }
    TabInsertAppends(env, t, rows);
    hide T.RowsFit, Writable, TabInsert, KindsOf, AllTaken, PagesHold, Appended, ColTypes;
    if rows == [] {
      NothingAppended(t.view, cols);
    }
  }

  lemma {:induction false} NothingAppended(s: Store, cols: seq<W.Column>)
    ensures Appended(s, s, []) && AllTaken(cols, [])
  {
  }

  lemma {:induction false} UpdateStep(env: Env, c: Cat, n: Name, cols: seq<W.Column>, ids: seq<nat>, rows: seq<Row>)
    requires n in c.tables && c.tables[n].schema == KindsOf(cols) && PagesHold(cols) && !c.refused && ids != []
    ensures UpdateAnswers(env, c, n, cols, ids, rows)
  {
    SchemaTakes(cols, rows);
    var t := c.tables[n];
    if T.RowsFit(t.schema, rows) {
      FitWritable(t.schema, rows);
    }
    KeepsSchema(env, t, ids, rows);
    TabUpdateReplaces(env, t, ids, rows);
    TabDeleteBuries(t, ids);
    hide T.RowsFit, Writable, TabInsert, TabDelete, KindsOf, AllTaken, PagesHold, Replaced, Buried, ColTypes;
  }

  /** A deletion is logged and marks the rows that exist; other rows and tables stay. */
  lemma {:induction false} DeleteAnswers(env: Env, c: Cat, n: Name, ids: seq<nat>)
    requires n in c.tables && ids != []
    ensures var d := Step(env, c, DeleteRows(n, ids));
            && n in d.tables && OthersStay(c, d, n) && Buried(c.tables[n].view, d.tables[n].view, ids)
            && d.log == c.log + [W.Delete(n, ids)] && d.refused == c.refused
  {
    TabDeleteBuries(c.tables[n], ids);
    hide TabDelete, Buried;
  }

  /** A new table is logged, is empty, and takes the values its columns are declared for. */
  lemma {:induction false} CreateAnswers(env: Env, c: Cat, n: Name, cols: seq<W.Column>, rows: seq<Row>)
    requires n !in c.tables && PagesHold(cols) && !c.refused
    ensures var d := Step(env, c, AddTable(n, cols));
            && n in d.tables && d.tables[n].view == Store([], {}) && OthersStay(c, d, n)
            && d.log == c.log + [W.CreateTable(n, cols)] && !d.refused
            && InsertAnswers(env, d, n, cols, rows)
  {
    var d := Step(env, c, AddTable(n, cols));
    assert d.tables[n].schema == KindsOf(cols);
    hide InsertAnswers, KindsOf, PagesHold;
    InsertStep(env, d, n, cols, rows);
  }

  // ---- over whole runs ----

  /** Event `k` is the first that creates its table. */
  ghost predicate Declares(es: seq<Event>, k: nat) {
    k < |es| && es[k].AddTable? && forall j :: 0 <= j < k && es[j].AddTable? ==> es[j].name != es[k].name
  }

  lemma {:induction false} StepSchema(env: Env, c: Cat, e: Event, n: Name)
    ensures n in c.tables ==> n in Step(env, c, e).tables && Step(env, c, e).tables[n].schema == c.tables[n].schema
    ensures n !in c.tables && n in Step(env, c, e).tables ==>
              e.AddTable? && e.name == n && Step(env, c, e).tables[n].schema == KindsOf(e.cols)
    ensures n !in c.tables && e.AddTable? && e.name == n ==> n in Step(env, c, e).tables
  {
    match e
    case InsertRows(m, rows) =>
      if m in c.tables {
        KeepsSchema(env, c.tables[m], [], rows);
      }
      hide TabInsert, T.RowsFit, Writable, KindsOf;
    case UpdateRows(m, ids, rows) =>
      if m in c.tables {
        KeepsSchema(env, c.tables[m], ids, []);
        KeepsSchema(env, TabDelete(c.tables[m], ids), [], rows);
      }
      hide TabInsert, TabDelete, T.RowsFit, Writable, KindsOf;
    case _ =>
      hide KindsOf;
  }

  /** A table has the columns that the first statement to create it declared. */
  lemma {:induction false} RunSchema(env: Env, c: Cat, es: seq<Event>, k: nat)
    requires Declares(es, k) && es[k].name !in c.tables
    ensures var d := After(env, c, es); es[k].name in d.tables && d.tables[es[k].name].schema == KindsOf(es[k].cols)
    decreases |es|
  {
    StepSchema(env, c, es[0], es[k].name);
    hide Step, KindsOf;
    if k == 0 {
      SchemaKept(env, Step(env, c, es[0]), es[1..], es[0].name);
    } else {
      assert es[1..][k - 1] == es[k];
      assert forall j :: 0 <= j < k - 1 ==> es[1..][j] == es[j + 1];
      RunSchema(env, Step(env, c, es[0]), es[1..], k - 1);
    }
  }

  lemma {:induction false} SchemaKept(env: Env, c: Cat, es: seq<Event>, n: Name)
    requires n in c.tables
    ensures n in After(env, c, es).tables && After(env, c, es).tables[n].schema == c.tables[n].schema
    decreases |es|
  {
    hide Step, KindsOf;
    if es != [] {
      StepSchema(env, c, es[0], n);
      SchemaKept(env, Step(env, c, es[0]), es[1..], n);
    }
  }

  /** After any run, a table takes the values that the statement which created it declared, and no others. */
  lemma {:induction false} DeclaredTakes(env: Env, es: seq<Event>, k: nat, ids: seq<nat>, rows: seq<Row>)
    requires Declares(es, k) && PagesHold(es[k].cols) && ids != []
    requires !After(env, Cat(map[], [], false, false), es).refused
    ensures var c := After(env, Cat(map[], [], false, false), es);
            && es[k].name in c.tables && InsertAnswers(env, c, es[k].name, es[k].cols, rows)
            && UpdateAnswers(env, c, es[k].name, es[k].cols, ids, rows)
  {
    RunSchema(env, Cat(map[], [], false, false), es, k);
    hide *;
    var c := After(env, Cat(map[], [], false, false), es);
    InsertStep(env, c, es[k].name, es[k].cols, rows);
    UpdateStep(env, c, es[k].name, es[k].cols, ids, rows);
  }

  // ---- after a load ----

  lemma {:induction false} LoadSchema(env: Env, n: Name, lsn: nat, t: Tab, rs: Records)
    ensures Replayed(env, n, lsn, t, rs).schema == t.schema
    decreases |rs|
  {
    if rs != [] {
      LoadSchema(env, n, lsn, t, rs[..|rs| - 1]);
      var u, r := Replayed(env, n, lsn, t, rs[..|rs| - 1]), rs[|rs| - 1].1;
      if r.Delete? || r.Update? {
        KeepsSchema(env, u, r.ids, []);
      }
      if r.Insert? {
        KeepsSchema(env, u, [], r.rows);
      } else if r.Update? {
        KeepsSchema(env, TabDelete(u, r.ids), [], r.rows);
      }
      hide TabInsert, TabDelete;
    }
  }

  lemma {:induction false} LoadTabSchema(env: Env, n: Name, img: Image, rs: Records)
    ensures LoadTab(env, n, img, rs).schema == img.schema
  {
    var e := EffOf(n, Ck(img.lsn, img.ckRows), rs);
    LoadSchema(env, n, e.lsn, Truncated(img, e.rows), rs);
    hide Replayed, EffOf;
  }

  /** Record `i` is the first that creates table `n`. */
  ghost predicate Creates(rs: Records, n: Name, i: nat) {
    && i < |rs| && rs[i].1.CreateTable? && rs[i].1.table == n
    && forall j :: 0 <= j < i && rs[j].1.CreateTable? ==> rs[j].1.table != n
  }

  lemma {:induction false} OpenedSchema(n: Name, rs: Records, i: nat)
    requires Creates(rs, n, i)
    ensures Opened(n, None, rs).Some? && Opened(n, None, rs).value.schema == KindsOf(rs[i].1.schema)
    decreases |rs|
  {
    hide KindsOf;
    var m := |rs| - 1;
    if i < m {
      OpenedSchema(n, rs[..m], i);
    } else {
      NotOpened(n, rs[..m]);
    }
  }

  lemma {:induction false} NotOpened(n: Name, rs: Records)
    requires forall j :: 0 <= j < |rs| && rs[j].1.CreateTable? ==> rs[j].1.table != n
    ensures Opened(n, None, rs) == None
    decreases |rs|
  {
    if rs != [] {
      NotOpened(n, rs[..|rs| - 1]);
    }
  }

  /** A table that load creates from the log takes the values that its record declares, and no others. */
  lemma {:induction false} CreatedTakes(env: Env, n: Name, rs: Records, i: nat, c: Cat, ids: seq<nat>, rows: seq<Row>)
    requires Creates(rs, n, i) && PagesHold(rs[i].1.schema) && ids != [] && !c.refused
    requires Get(c.tables, n) == LoadOne(env, n, None, rs)
    ensures n in c.tables && InsertAnswers(env, c, n, rs[i].1.schema, rows)
    ensures UpdateAnswers(env, c, n, rs[i].1.schema, ids, rows)
  {
    OpenedSchema(n, rs, i);
    LoadTabSchema(env, n, Opened(n, None, rs).value, rs);
    hide KindsOf, InsertAnswers, UpdateAnswers, LoadTab, Opened, PagesHold;
    InsertStep(env, c, n, rs[i].1.schema, rows);
    UpdateStep(env, c, n, rs[i].1.schema, ids, rows);
  }

  /** After a run, a crash and a load a table takes the same values as before. */
  lemma {:induction false} RecoveredTakes(env: Env, es: seq<Event>, k: nat, images: map<Name, Image>, c: Cat, ids: seq<nat>, rows: seq<Row>)
    requires Declares(es, k) && PagesHold(es[k].cols) && ids != [] && !c.refused
    requires var d := After(env, Cat(map[], [], false, false), es);
             CrashImages(d, images) && Get(c.tables, es[k].name) == LoadOne(env, es[k].name, Get(images, es[k].name), Entries(env, d.log))
    ensures es[k].name in c.tables && InsertAnswers(env, c, es[k].name, es[k].cols, rows)
    ensures UpdateAnswers(env, c, es[k].name, es[k].cols, ids, rows)
  {
    var d, n := After(env, Cat(map[], [], false, false), es), es[k].name;
    RunSchema(env, Cat(map[], [], false, false), es, k);
    assert n in images && CrashOf(d.tables[n], images[n]);
    ImageOpened(n, images[n], Entries(env, d.log));
    LoadTabSchema(env, n, images[n], Entries(env, d.log));
    hide KindsOf, InsertAnswers, UpdateAnswers, LoadTab, Opened, PagesHold, After, Entries;
    InsertStep(env, c, n, es[k].cols, rows);
    UpdateStep(env, c, n, es[k].cols, ids, rows);
  }

  lemma {:induction false} ImageOpened(n: Name, img: Image, rs: Records)
    ensures Opened(n, Some(img), rs) == Some(img)
    decreases |rs|
  {
    if rs != [] {
      ImageOpened(n, img, rs[..|rs| - 1]);
    }
  }

  // ---- on the objects ----

  /** Creates a table in a catalog and inserts into it: the rows are in the table object exactly if its columns take them. */
  method CreateAndInsert(cat: C.Catalog, n: Name, cols: seq<W.Column>, rows: seq<Row>) returns (ok: bool)
    requires cat.Valid() && !cat.refused && n !in cat.tables && PagesHold(cols)
    modifies cat, cat.wal, cat.owner.Keys
    ensures cat.Valid() && (ok <==> AllTaken(cols, rows))
    ensures ok ==> !cat.refused && n in cat.tables && cat.tables[n].Valid()
    ensures ok ==> cat.tables[n].View().rows == rows && forall id :: 0 <= id < |rows| ==> id !in cat.tables[n].View().dead
  {
    hide Step, AllTaken, C.Catalog.Valid;
    ghost var c := cat.State();
    NothingAppended(Store([], {}), cols);
    cat.SameNames(n);
    CreateAnswers(cat.env, c, n, cols, rows);
    cat.AddTable(n, cols);
    ghost var d := cat.State();
    cat.InsertRows(n, rows);
    ok := !cat.refused;
    if ok {
      TableShows(cat, n);
      var count := cat.tables[n].RowCount();
      ok := count == |rows|;
    }
  }

  lemma {:induction false} TableShows(cat: C.Catalog, n: Name)
    requires cat.Valid() && !cat.refused && n in cat.tabs
    ensures n in cat.tables && cat.tables[n].Valid() && cat.tables[n].View() == cat.tabs[n].view
  {
    assert C.Linked(cat.env.threshold, cat.tables[n], cat.disk[n], cat.tabs[n]);
  }
}
