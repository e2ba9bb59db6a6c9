/** The catalog as it runs: tables, the records it logs before it changes them, and checkpoints. */
module CatalogLog {
  import opened Options
  import opened Bytes
  import opened Values
  import opened RowStore
  import T = Tables
  import F = ColumnFiles
  import W = WalCodec
  import R = WalRoundTrip

  type Schema = T.Schema

  /** The checksum of the log and the number of buffered rows at which a table is sealed. */
  datatype Env = Env(hash: W.Hash, threshold: nat)

  /**
   * A table: its rows and tombstones, how many rows are sealed, how many buffered rows are
   * known to be on the disk, and the checkpoint on the disk.
   */
  datatype Tab = Tab(schema: Schema, view: Store, base: nat, flushed: nat, lsn: nat, ckRows: nat)

  /** The tables, the log if it is open, and whether a table has refused rows that are already logged. */
  datatype Cat = Cat(tables: map<Name, Tab>, log: seq<W.Record>, walOpen: bool, refused: bool)

  datatype Event =
    | AddTable(name: Name, cols: seq<W.Column>)
    | InsertRows(name: Name, rows: seq<Row>)
    | DeleteRows(name: Name, ids: seq<nat>)
    | UpdateRows(name: Name, ids: seq<nat>, rows: seq<Row>)
    | Checkpoint(keepLog: bool)

  function KindsOf(cols: seq<W.Column>): (s: Schema)
    ensures |s| == |cols|
  {
    seq(|cols|, i requires 0 <= i < |cols| => F.Kind(cols[i].code, cols[i].nullable, cols[i].maxLen))
  }

  function ColTypes(s: Schema): seq<W.ColType> {
    seq(|s|, i requires 0 <= i < |s| => W.ColType(s[i].typ, s[i].maxLen))
  }

  function NewTab(schema: Schema): Tab {
    Tab(schema, Store([], {}), 0, 0, 0, 0)
  }

  /** Where the next record is written. */
  function Offset(env: Env, log: seq<W.Record>): nat {
    6 + |W.EncodeAll(env.hash, log)|
  }

  predicate SealsTab(env: Env, t: Tab, rows: seq<Row>) {
    T.Seals(rows, if t.base <= |t.view.rows| then |t.view.rows| - t.base else 0, env.threshold)
  }

  /** What an insert does to a table: see the contract of the table's own insert. */
  function TabInsert(env: Env, t: Tab, rows: seq<Row>): Tab {
    if SealsTab(env, t, rows)
    then t.(view := Seen(Insert(t.view, rows)), base := |t.view.rows| + |rows|, flushed := 0)
    else t.(view := Insert(t.view, rows))
  }

  function TabDelete(t: Tab, ids: seq<nat>): Tab {
    t.(view := Delete(t.view, ids))
  }

  function Logged(c: Cat, r: W.Record): Cat {
    c.(log := c.log + [r], walOpen := true)
  }

  function WithTable(c: Cat, name: Name, t: Tab): Cat {
    c.(tables := c.tables[name := t])
  }

  /** The segment-flush record that follows an operation which sealed the table. */
  function Flushed(c: Cat, name: Name, before: nat, after: nat): Cat {
    if after > before then Logged(c, W.SegmentFlush(name, after)) else c
  }

  /** Values the log writer can write: it throws at one of another type than its column. */
  predicate Writable(schema: Schema, rows: seq<Row>) {
    && T.SizesOk(|schema|, rows)
    && forall r, c :: 0 <= r < |rows| && 0 <= c < |schema| ==>
         rows[r][c].Null? || TypeOf(rows[r][c]) == R.PlainCode(schema[c].typ)
  }

  /**
   * Logs the record and then inserts the rows into table `t`. A table that refuses them, for a
   * NULL or a string too long, leaves the record in the log.
   */
  function Written(env: Env, c: Cat, name: Name, t: Tab, r: W.Record, rows: seq<Row>): Cat {
    var d := Logged(c, r);
    if !T.RowsFit(t.schema, rows) then WithTable(d, name, t).(refused := true)
    else
      var t' := TabInsert(env, t, rows);
      Flushed(WithTable(d, name, t'), name, t.base, t'.base)
  }

  function Step(env: Env, c: Cat, e: Event): Cat {
    match e
    case AddTable(name, cols) =>
      var d := Logged(c, W.CreateTable(name, cols));
      if name in c.tables then d else WithTable(d, name, NewTab(KindsOf(cols)))
    case InsertRows(name, rows) =>
      if name !in c.tables then c
      else if rows == [] || !Writable(c.tables[name].schema, rows) then c.(walOpen := true)
      else
        var t := c.tables[name];
        Written(env, c, name, t, W.Insert(name, ColTypes(t.schema), rows), rows)
    case DeleteRows(name, ids) =>
      if ids == [] || name !in c.tables then c
      else WithTable(Logged(c, W.Delete(name, ids)), name, TabDelete(c.tables[name], ids))
    case UpdateRows(name, ids, rows) =>
      if ids == [] || name !in c.tables then c
      else if !Writable(c.tables[name].schema, rows) then c.(walOpen := true)
      else
        var t := c.tables[name];
        Written(env, c, name, TabDelete(t, ids), W.Update(name, ids, ColTypes(t.schema), rows), rows)
    case Checkpoint(keepLog) =>
      var off := if c.walOpen then Offset(env, c.log) else 0;
      var d := c.(tables := map n | n in c.tables :: Checkpointed(c.tables[n], off));
      if keepLog then d else d.(log := [], walOpen := false)
  }

  /** All rows are on the disk, and the checkpoint says so. */
  function Checkpointed(t: Tab, off: nat): Tab {
    t.(flushed := if t.base <= |t.view.rows| then |t.view.rows| - t.base else 0, lsn := off, ckRows := |t.view.rows|)
  }

  /** Statements as they reach the catalog: one value per column, schemas with columns. */
  ghost predicate EventOk(c: Cat, e: Event) {
    match e
    case AddTable(_, cols) => cols != []
    case InsertRows(name, rows) => name in c.tables ==> T.SizesOk(|c.tables[name].schema|, rows)
    case UpdateRows(name, _, rows) => name in c.tables ==> T.SizesOk(|c.tables[name].schema|, rows)
    case _ => true
  }

  /** The rows of a statement that are logged are such that their table takes them. */
  ghost predicate EventFits(c: Cat, e: Event) {
    match e
    case InsertRows(name, rows) =>
      name in c.tables && Writable(c.tables[name].schema, rows) ==> T.RowsFit(c.tables[name].schema, rows)
    case UpdateRows(name, ids, rows) =>
      name in c.tables && ids != [] && Writable(c.tables[name].schema, rows) ==> T.RowsFit(c.tables[name].schema, rows)
    case _ => true
  }

  /** A run, followed up to the first statement whose rows are refused after they were logged. */
  ghost predicate Run(env: Env, c: Cat, es: seq<Event>)
    decreases es
  {
    es == [] || (!c.refused && EventOk(c, es[0]) && Run(env, Step(env, c, es[0]), es[1..]))
  }

  /** Every statement of the run fits. */
  ghost predicate Fitting(env: Env, c: Cat, es: seq<Event>)
    decreases es
  {
    es == [] || (EventFits(c, es[0]) && Fitting(env, Step(env, c, es[0]), es[1..]))
  }

  /** A run refuses rows just when a statement does not fit. */
  lemma {:induction false} RefusedIff(env: Env, c: Cat, e: Event)
    requires !c.refused
    ensures Step(env, c, e).refused <==> !EventFits(c, e)
  {
    EmptyFits(c, e);
    hide TabInsert, Writable, T.RowsFit, Offset;
  }

  lemma {:induction false} EmptyFits(c: Cat, e: Event)
    ensures e.InsertRows? && e.name in c.tables && e.rows == [] ==> T.RowsFit(c.tables[e.name].schema, e.rows)
  {
  }

  function After(env: Env, c: Cat, es: seq<Event>): Cat
    decreases es
  {
    if es == [] then c else After(env, Step(env, c, es[0]), es[1..])
  }

  // ---- the simple meaning of a log ----

  /** What one record does to the table `name`. */
  function Apply(name: Name, s: Option<Store>, r: W.Record): Option<Store> {
    if r.table != name then s
    else
      match r
      case CreateTable(_, _) => if s.None? then Some(Store([], {})) else s
      case Insert(_, _, rows) => if s.None? then s else Some(Insert(s.value, rows))
      case Delete(_, ids) => if s.None? then s else Some(Delete(s.value, ids))
      case Update(_, ids, _, rows) => if s.None? then s else Some(Update(s.value, ids, rows))
      case SegmentFlush(_, _) => s
  }

  /** Each record of the log applied once, in order. */
  function Fold(name: Name, s: Option<Store>, log: seq<W.Record>): Option<Store> {
    if log == [] then s else Apply(name, Fold(name, s, log[..|log| - 1]), log[|log| - 1])
  }

  /** The rows of a table that may not exist yet. */
  function RowsIn(s: Option<Store>): seq<Row> {
    if s.Some? then s.value.rows else []
  }

  function DeadOf(s: Option<Store>): set<nat> {
    if s.Some? then s.value.dead else {}
  }

  function Start(start: map<Name, Tab>, name: Name): Option<Store> {
    if name in start then Some(start[name].view) else None
  }

  lemma {:induction false} FoldSnoc(name: Name, s: Option<Store>, log: seq<W.Record>, r: W.Record)
    ensures Fold(name, s, log + [r]) == Apply(name, Fold(name, s, log), r)
  {
    assert (log + [r])[..|log|] == log;
  }

  ghost predicate TidyOpt(s: Option<Store>) {
    s.Some? ==> Tidy(s.value)
  }

  lemma {:induction false} ApplyTidy(name: Name, s: Option<Store>, r: W.Record)
    requires TidyOpt(s)
    ensures TidyOpt(Apply(name, s, r))
    ensures RowsIn(s) <= RowsIn(Apply(name, s, r)) && DeadOf(s) <= DeadOf(Apply(name, s, r))
  {
  }

  /** A table only grows, in rows and in tombstones. */
  lemma {:induction false} FoldGrows(name: Name, s: Option<Store>, log: seq<W.Record>, k: nat)
    requires TidyOpt(s) && k <= |log|
    ensures TidyOpt(Fold(name, s, log))
    ensures RowsIn(Fold(name, s, log[..k])) <= RowsIn(Fold(name, s, log))
    ensures DeadOf(Fold(name, s, log[..k])) <= DeadOf(Fold(name, s, log))
  {
    hide Apply;
    if k == |log| {
      assert log[..k] == log;
      if log != [] {
        FoldGrows(name, s, log[..|log| - 1], |log| - 1);
        ApplyTidy(name, Fold(name, s, log[..|log| - 1]), log[|log| - 1]);
      }
    } else {
      FoldGrows(name, s, log[..|log| - 1], k);
      assert log[..|log| - 1][..k] == log[..k];
      ApplyTidy(name, Fold(name, s, log[..|log| - 1]), log[|log| - 1]);
    }
  }

  // ---- checkpoints ----

  datatype Ck = Ck(lsn: nat, rows: nat)

  /** The offset of record `i`. */
  function OffOf(env: Env, log: seq<W.Record>, i: nat): nat
    requires i <= |log|
  {
    Offset(env, log[..i])
  }

  /** The number of records that lie before offset `lsn`. */
  function CutOf(env: Env, log: seq<W.Record>, lsn: nat): (j: nat)
    ensures j <= |log|
  {
    if log == [] then 0
    else
      var n := |log| - 1;
      if OffOf(env, log, n) < lsn then |log| else CutOf(env, log[..n], lsn)
  }

  lemma {:induction false} CutOfMeans(env: Env, log: seq<W.Record>, lsn: nat, i: nat)
    requires i < |log|
    ensures i < CutOf(env, log, lsn) <==> OffOf(env, log, i) < lsn
  {
    hide Offset;
    var n := |log| - 1;
    OffsetsRise(env, log, i, n);
    if i < n && OffOf(env, log, n) >= lsn {
      CutOfMeans(env, log[..n], lsn, i);
      assert log[..n][..i] == log[..i];
    } else if OffOf(env, log, n) >= lsn {
      assert CutOf(env, log, lsn) <= n;
    }
  }

  /** The stored checkpoint, overtaken by later segment-flush records of the table. */
  function Eff(env: Env, name: Name, ck: Ck, log: seq<W.Record>): Ck {
    if log == [] then ck
    else
      var n := |log| - 1;
      var e := Eff(env, name, ck, log[..n]);
      if log[n].SegmentFlush? && log[n].table == name && OffOf(env, log, n) > e.lsn
      then Ck(OffOf(env, log, n), log[n].sealedRows) else e
  }

  lemma {:induction false} EffSnoc(env: Env, name: Name, ck: Ck, log: seq<W.Record>, r: W.Record)
    ensures Eff(env, name, ck, log + [r])
         == if r.SegmentFlush? && r.table == name && Offset(env, log) > Eff(env, name, ck, log).lsn
            then Ck(Offset(env, log), r.sealedRows) else Eff(env, name, ck, log)
  {
    assert (log + [r])[..|log|] == log;
  }

  lemma {:induction false} RecordLength(env: Env, r: W.Record)
    ensures |W.Encode(env.hash, r)| > 0
  {
  }

  lemma {:induction false} OffsetSnoc(env: Env, log: seq<W.Record>, r: W.Record)
    ensures Offset(env, log + [r]) == Offset(env, log) + |W.Encode(env.hash, r)| > Offset(env, log)
  {
    RecordLength(env, r);
    hide W.Encode;
    EncodeAllLength(env.hash, log, r);
  }

  lemma {:induction false} EncodeAllLength(hash: W.Hash, rs: seq<W.Record>, r: W.Record)
    ensures |W.EncodeAll(hash, rs + [r])| == |W.EncodeAll(hash, rs)| + |W.Encode(hash, r)|
  {
    hide W.Encode;
    if rs == [] {
      assert rs + [r] == [r] && [r][1..] == [];
      assert W.EncodeAll(hash, [r]) == W.Encode(hash, r) + W.EncodeAll(hash, []);
    } else {
      EncodeAllLength(hash, rs[1..], r);
      assert (rs + [r])[1..] == rs[1..] + [r];
    }
  }

  lemma {:induction false} OffsetsRise(env: Env, log: seq<W.Record>, i: nat, j: nat)
    requires i <= j <= |log|
    ensures OffOf(env, log, i) <= OffOf(env, log, j)
    ensures i < j ==> OffOf(env, log, i) < OffOf(env, log, j)
  {
    hide Offset;
    if i < j {
      OffsetsRise(env, log, i, j - 1);
      assert log[..j] == log[..j - 1] + [log[j - 1]];
      OffsetSnoc(env, log[..j - 1], log[j - 1]);
    }
  }
}
