/** What every run of the catalog keeps, so that its log and its checkpoints describe its tables. */
module CatalogRun {
  import opened Options
  import opened Bytes
  import opened Values
  import opened RowStore
  import opened CatalogLog
  import T = Tables
  import W = WalCodec

  /** A table of which everything is on the disk, whatever offset its checkpoint stores. */
  ghost predicate Durable(t: Tab) {
    && Tidy(t.view) && t.base + t.flushed == |t.view.rows| && t.ckRows == |t.view.rows|
    && T.SizesOk(|t.schema|, t.view.rows)
  }

  /** A table as recovery leaves it: the stored offset lies before every record of the new log. */
  ghost predicate LoadedTab(t: Tab) {
    Durable(t) && t.lsn <= 6
  }

  ghost predicate Loaded(start: map<Name, Tab>) {
    forall n :: n in start ==> LoadedTab(start[n])
  }

  ghost predicate AllDurable(start: map<Name, Tab>) {
    forall n :: n in start ==> Durable(start[n])
  }

  ghost predicate NoRecs(name: Name, log: seq<W.Record>) {
    forall i :: 0 <= i < |log| ==> log[i].table != name
  }

  /** A table is created before anything else is logged about it. */
  ghost predicate Orderly(name: Name, s: Option<Store>, log: seq<W.Record>) {
    forall k :: 0 <= k < |log| ==> OrderlyAt(name, s, log, k)
  }

  ghost predicate OrderlyAt(name: Name, s: Option<Store>, log: seq<W.Record>, k: nat)
    requires k < |log|
  {
    log[k].table == name && Fold(name, s, log[..k]).None? ==> log[k].CreateTable?
  }

  /** The records before number `j` are those that lie before offset `lsn`. */
  ghost predicate CutAt(env: Env, log: seq<W.Record>, lsn: nat, j: nat) {
    j <= |log| && (j > 0 ==> OffOf(env, log, j - 1) < lsn) && lsn <= OffOf(env, log, j)
  }

  /** The checkpoint counts the rows that the records before it made. */
  ghost predicate CkAt(env: Env, s: Option<Store>, log: seq<W.Record>, name: Name, e: Ck, j: nat) {
    CutAt(env, log, e.lsn, j) && |RowsIn(Fold(name, s, log[..j]))| == e.rows
  }

  ghost predicate CkOk(env: Env, s: Option<Store>, log: seq<W.Record>, name: Name, e: Ck) {
    exists j :: CkAt(env, s, log, name, e, j)
  }

  /** The table takes the rows that a record gives it. */
  predicate RecordFits(schema: Schema, name: Name, r: W.Record) {
    r.table == name && (r.Insert? || r.Update?) ==> T.RowsFit(schema, r.rows)
  }

  ghost predicate LogFits(schema: Schema, name: Name, log: seq<W.Record>) {
    forall i :: 0 <= i < |log| ==> RecordFits(schema, name, log[i])
  }

  /**
   * A table agrees with its log and the rows of its checkpoint are on the disk. In the strict
   * form the checkpoint also counts the rows of just the records before its offset, which a
   * checkpoint left by an older log does not.
   */
  ghost predicate TabInv(env: Env, strict: bool, s: Option<Store>, t: Tab, name: Name, log: seq<W.Record>) {
    && Fold(name, s, log) == Some(t.view) && Tidy(t.view)
    && t.base + t.flushed <= |t.view.rows| && T.SizesOk(|t.schema|, t.view.rows)
    && Orderly(name, s, log) && LogFits(t.schema, name, log)
    && var e := Eff(env, name, Ck(t.lsn, t.ckRows), log);
       e.rows <= t.base + t.flushed && (strict ==> t.base <= e.rows && CkOk(env, s, log, name, e))
  }

  ghost predicate Inv(env: Env, strict: bool, start: map<Name, Tab>, c: Cat) {
    && !c.refused
    && (forall n :: n in start ==> n in c.tables)
    && (!c.walOpen ==> c.log == [])
    && (forall n :: n in c.tables ==> TabInv(env, strict, Start(start, n), c.tables[n], n, c.log))
    && (forall n :: n !in c.tables ==> NoRecs(n, c.log))
  }

  // ---- appending to the log ----

  lemma {:induction false} OffSame(env: Env, log: seq<W.Record>, r: W.Record, i: nat)
    requires i <= |log|
    ensures OffOf(env, log + [r], i) == OffOf(env, log, i) && (log + [r])[..i] == log[..i]
  {
    assert (log + [r])[..i] == log[..i];
  }

  lemma {:induction false} CkStays(env: Env, s: Option<Store>, log: seq<W.Record>, name: Name, e: Ck, r: W.Record)
    requires CkOk(env, s, log, name, e)
    ensures CkOk(env, s, log + [r], name, e) && e.lsn <= Offset(env, log)
  {
    hide Offset, Fold;
    var j: nat :| CkAt(env, s, log, name, e, j);
    OffSame(env, log, r, j);
    if j > 0 {
      OffSame(env, log, r, j - 1);
    }
    assert CkAt(env, s, log + [r], name, e, j);
    OffsetsRise(env, log, j, |log|);
    assert log[..|log|] == log;
  }

  lemma {:induction false} OrderlySnoc(name: Name, s: Option<Store>, log: seq<W.Record>, r: W.Record)
    requires Orderly(name, s, log)
    requires r.table == name && Fold(name, s, log).None? ==> r.CreateTable?
    ensures Orderly(name, s, log + [r])
  {
    hide Fold;
    forall k | 0 <= k < |log + [r]|
      ensures OrderlyAt(name, s, log + [r], k)
    {
      assert (log + [r])[..k] == log[..k];
      if k < |log| {
        assert OrderlyAt(name, s, log, k);
      } else {
        assert log[..k] == log;
      }
    }
  }

  /** A record about another table changes nothing here. */
  lemma {:induction false} OtherRecord(env: Env, strict: bool, s: Option<Store>, t: Tab, name: Name, log: seq<W.Record>, r: W.Record)
    requires TabInv(env, strict, s, t, name, log) && r.table != name
    ensures TabInv(env, strict, s, t, name, log + [r])
  {
    FoldSnoc(name, s, log, r);
    EffSnoc(env, name, Ck(t.lsn, t.ckRows), log, r);
    if strict {
      CkStays(env, s, log, name, Eff(env, name, Ck(t.lsn, t.ckRows), log), r);
    }
    OrderlySnoc(name, s, log, r);
    FitsSnoc(t.schema, name, log, r);
    hide Eff, CkOk, Fold, Orderly, LogFits, Tidy;
  }

  lemma {:induction false} FitsSnoc(schema: Schema, name: Name, log: seq<W.Record>, r: W.Record)
    requires LogFits(schema, name, log)
    ensures LogFits(schema, name, log + [r]) <==> RecordFits(schema, name, r)
  {
    hide T.RowsFit;
    assert (log + [r])[|log|] == r;
  }

  /** An operation that leaves the table unsealed. */
  lemma {:induction false} OwnRecord(env: Env, strict: bool, s: Option<Store>, t: Tab, t': Tab, name: Name, log: seq<W.Record>, r: W.Record)
    requires TabInv(env, strict, s, t, name, log) && !r.SegmentFlush?
    requires t' == t.(view := t'.view) && Apply(name, Some(t.view), r) == Some(t'.view)
    requires T.SizesOk(|t.schema|, t'.view.rows) && RecordFits(t.schema, name, r)
    ensures TabInv(env, strict, s, t', name, log + [r])
  {
    FoldSnoc(name, s, log, r);
    EffSnoc(env, name, Ck(t.lsn, t.ckRows), log, r);
    if strict {
      CkStays(env, s, log, name, Eff(env, name, Ck(t.lsn, t.ckRows), log), r);
    }
    OrderlySnoc(name, s, log, r);
    FitsSnoc(t.schema, name, log, r);
    ApplyTidy(name, Some(t.view), r);
    hide Eff, CkOk, Apply, Fold, Orderly, LogFits;
    assert RowsIn(Some(t.view)) <= RowsIn(Some(t'.view));
  }

  /** An operation that seals the table, and the segment-flush record after it. */
  lemma {:induction false} SealRecord(env: Env, strict: bool, s: Option<Store>, t: Tab, t': Tab, name: Name, log: seq<W.Record>, r: W.Record)
    requires TabInv(env, strict, s, t, name, log) && !r.SegmentFlush?
    requires t' == t.(view := t'.view, base := |t'.view.rows|, flushed := 0)
    requires Apply(name, Some(t.view), r) == Some(t'.view) && T.SizesOk(|t.schema|, t'.view.rows) && RecordFits(t.schema, name, r)
    ensures TabInv(env, strict, s, t', name, log + [r] + [W.SegmentFlush(name, t'.base)])
  {
    var u := t.(view := t'.view);
    OwnRecord(env, strict, s, t, u, name, log, r);
    var log1, f := log + [r], W.SegmentFlush(name, t'.base);
    var ck := Ck(t.lsn, t.ckRows);
    FoldSnoc(name, s, log1, f);
    EffSnoc(env, name, ck, log1, f);
    OrderlySnoc(name, s, log1, f);
    FitsSnoc(t.schema, name, log1, f);
    if strict {
      SealedCk(env, s, t, name, log, r, t'.base);
    }
    hide Eff, CkOk, Fold, Orderly, LogFits, Tidy, Offset;
  }

  /** The segment-flush record overtakes the checkpoint and counts the rows before it. */
  lemma {:induction false} SealedCk(env: Env, s: Option<Store>, t: Tab, name: Name, log: seq<W.Record>, r: W.Record, rows: nat)
    requires TabInv(env, true, s, t, name, log) && !r.SegmentFlush?
    requires |RowsIn(Fold(name, s, log + [r]))| == rows
    ensures var ck, log1 := Ck(t.lsn, t.ckRows), log + [r];
            var log2 := log1 + [W.SegmentFlush(name, rows)];
            Eff(env, name, ck, log2) == Ck(Offset(env, log1), rows) && CkOk(env, s, log2, name, Eff(env, name, ck, log2))
  {
    var ck, log1, f := Ck(t.lsn, t.ckRows), log + [r], W.SegmentFlush(name, rows);
    CkStays(env, s, log, name, Eff(env, name, ck, log), r);
    EffSnoc(env, name, ck, log, r);
    EffSnoc(env, name, ck, log1, f);
    OffsetSnoc(env, log, r);
    hide Eff, Fold, Orderly, LogFits, Tidy, Offset, CkOk;
    SealCk(env, s, log1, f, name, rows);
  }

  lemma {:induction false} SealCk(env: Env, s: Option<Store>, log: seq<W.Record>, f: W.Record, name: Name, rows: nat)
    requires |RowsIn(Fold(name, s, log))| == rows && log != []
    ensures CkOk(env, s, log + [f], name, Ck(Offset(env, log), rows))
  {
    hide Fold, Offset;
    var j := |log|;
    OffSame(env, log, f, j);
    OffSame(env, log, f, j - 1);
    OffsetsRise(env, log, j - 1, j);
    assert log[..j] == log;
    assert CkAt(env, s, log + [f], name, Ck(Offset(env, log), rows), j);
  }

  // ---- checkpoints and new tables ----

  /** No segment-flush record lies after the end of the log. */
  lemma {:induction false} EffAtEnd(env: Env, name: Name, ck: Ck, log: seq<W.Record>, k: nat)
    requires k <= |log| && ck.lsn >= OffOf(env, log, |log|)
    ensures Eff(env, name, ck, log[..k]) == ck
  {
    hide Offset;
    if k > 0 {
      EffAtEnd(env, name, ck, log, k - 1);
      OffsetsRise(env, log, k - 1, |log|);
      assert log[..k] == log[..k - 1] + [log[k - 1]];
      EffSnoc(env, name, ck, log[..k - 1], log[k - 1]);
    }
  }

  lemma {:induction false} CheckpointInv(env: Env, strict: bool, s: Option<Store>, t: Tab, name: Name, log: seq<W.Record>, off: nat)
    requires TabInv(env, strict, s, t, name, log)
    requires off == Offset(env, log) || (log == [] && off == 0)
    ensures TabInv(env, strict, s, Checkpointed(t, off), name, log)
  {
    CheckpointAtEnd(env, s, t.view, name, log, off);
    hide Offset, Fold, Eff, CkOk, Orderly, Tidy, LogFits;
  }

  /** A checkpoint at the end of the log stands for all the rows, and no record follows it. */
  lemma {:induction false} CheckpointAtEnd(env: Env, s: Option<Store>, v: Store, name: Name, log: seq<W.Record>, off: nat)
    requires Fold(name, s, log) == Some(v)
    requires off == Offset(env, log) || (log == [] && off == 0)
    ensures var e := Ck(off, |v.rows|);
            Eff(env, name, e, log) == e && CkOk(env, s, log, name, e)
  {
    var e := Ck(off, |v.rows|);
    assert log[..|log|] == log;
    hide Offset, Fold;
    if log == [] {
      assert Eff(env, name, e, log) == e;
      assert CkAt(env, s, log, name, e, 0);
    } else {
      EffAtEnd(env, name, e, log, |log|);
      OffsetsRise(env, log, |log| - 1, |log|);
      assert CkAt(env, s, log, name, e, |log|);
    }
  }

  lemma {:induction false} NoRecsFold(name: Name, log: seq<W.Record>, env: Env, ck: Ck)
    requires NoRecs(name, log)
    ensures Fold(name, None, log) == None && Eff(env, name, ck, log) == ck && Orderly(name, None, log)
  {
    hide Offset;
    if log != [] {
      var n := |log| - 1;
      NoRecsFold(name, log[..n], env, ck);
      forall k | 0 <= k < |log|
        ensures OrderlyAt(name, None, log, k)
      {
        assert log[k].table != name;
      }
    }
  }

  lemma {:induction false} NoRecsFit(schema: Schema, name: Name, log: seq<W.Record>)
    requires NoRecs(name, log)
    ensures LogFits(schema, name, log)
  {
  }

  lemma {:induction false} NewTableInv(env: Env, strict: bool, name: Name, log: seq<W.Record>, cols: seq<W.Column>)
    requires NoRecs(name, log)
    ensures TabInv(env, strict, None, NewTab(KindsOf(cols)), name, log + [W.CreateTable(name, cols)])
  {
    var r := W.CreateTable(name, cols);
    var ck := Ck(0, 0);
    NoRecsFold(name, log, env, ck);
    FoldSnoc(name, None, log, r);
    EffSnoc(env, name, ck, log, r);
    OrderlySnoc(name, None, log, r);
    NoRecsFit(KindsOf(cols), name, log);
    FitsSnoc(KindsOf(cols), name, log, r);
    hide Offset, Eff, Orderly, LogFits;
    assert (log + [r])[..0] == [];
    assert CkAt(env, None, log + [r], name, ck, 0);
  }

  // ---- steps ----

  lemma {:induction false} NoRecsSnoc(name: Name, log: seq<W.Record>, r: W.Record)
    requires NoRecs(name, log) && r.table != name
    ensures NoRecs(name, log + [r])
  {
  }

  /** The record of one table and its effect there, with every other table left alone. */
  lemma {:induction false} TableStep(env: Env, strict: bool, start: map<Name, Tab>, c: Cat, name: Name, t': Tab, log': seq<W.Record>)
    requires Inv(env, strict, start, c)
    requires TabInv(env, strict, Start(start, name), t', name, log')
    requires forall n :: n in c.tables && n != name ==> TabInv(env, strict, Start(start, n), c.tables[n], n, log')
    requires forall n :: n !in c.tables && n != name ==> NoRecs(n, log')
    ensures Inv(env, strict, start, Cat(c.tables[name := t'], log', true, false))
  {
    hide TabInv, NoRecs;
  }

  lemma {:induction false} OthersKeep(env: Env, strict: bool, start: map<Name, Tab>, c: Cat, name: Name, r: W.Record)
    requires Inv(env, strict, start, c) && r.table == name
    ensures forall n :: n in c.tables && n != name ==> TabInv(env, strict, Start(start, n), c.tables[n], n, c.log + [r])
    ensures forall n :: n !in c.tables && n != name ==> NoRecs(n, c.log + [r])
  {
    hide TabInv, NoRecs;
    forall n | n in c.tables && n != name
      ensures TabInv(env, strict, Start(start, n), c.tables[n], n, c.log + [r])
    {
      OtherRecord(env, strict, Start(start, n), c.tables[n], n, c.log, r);
    }
    forall n | n !in c.tables && n != name
      ensures NoRecs(n, c.log + [r])
    {
      NoRecsSnoc(n, c.log, r);
    }
  }

  lemma {:induction false} OthersKeepTwo(env: Env, strict: bool, start: map<Name, Tab>, c: Cat, name: Name, r: W.Record, f: W.Record)
    requires Inv(env, strict, start, c) && r.table == name && f.table == name
    ensures forall n :: n in c.tables && n != name ==> TabInv(env, strict, Start(start, n), c.tables[n], n, c.log + [r] + [f])
    ensures forall n :: n !in c.tables && n != name ==> NoRecs(n, c.log + [r] + [f])
  {
    OthersKeep(env, strict, start, c, name, r);
    hide TabInv, NoRecs;
    forall n | n in c.tables && n != name
      ensures TabInv(env, strict, Start(start, n), c.tables[n], n, c.log + [r] + [f])
    {
      OtherRecord(env, strict, Start(start, n), c.tables[n], n, c.log + [r], f);
    }
    forall n | n !in c.tables && n != name
      ensures NoRecs(n, c.log + [r] + [f])
    {
      NoRecsSnoc(n, c.log + [r], f);
    }
  }

  /** An operation with record `r` that turns table `t` into `t'`, sealing it or not. */
  lemma {:induction false} WriteStep(env: Env, strict: bool, start: map<Name, Tab>, c: Cat, name: Name, t': Tab, r: W.Record)
    requires Inv(env, strict, start, c) && name in c.tables && r.table == name && !r.SegmentFlush?
    requires var t := c.tables[name];
             && Apply(name, Some(t.view), r) == Some(t'.view) && T.SizesOk(|t.schema|, t'.view.rows)
             && RecordFits(t.schema, name, r)
             && (t' == t.(view := t'.view) || (t' == t.(view := t'.view, base := |t'.view.rows|, flushed := 0) && t'.base > t.base))
    ensures Inv(env, strict, start, Flushed(WithTable(Logged(c, r), name, t'), name, c.tables[name].base, t'.base))
  {
    var t, s := c.tables[name], Start(start, name);
    assert TabInv(env, strict, s, t, name, c.log);
    if t'.base > t.base {
      var f := W.SegmentFlush(name, t'.base);
      SealRecord(env, strict, s, t, t', name, c.log, r);
      OthersKeepTwo(env, strict, start, c, name, r, f);
      hide TabInv, Inv, NoRecs;
      TableStep(env, strict, start, c, name, t', c.log + [r] + [f]);
    } else {
      OwnRecord(env, strict, s, t, t', name, c.log, r);
      OthersKeep(env, strict, start, c, name, r);
      hide TabInv, Inv, NoRecs;
      TableStep(env, strict, start, c, name, t', c.log + [r]);
    }
  }

  /** Inserting into a tidy table is inserting into its row sequence. */
  lemma {:induction false} InsertEffect(env: Env, t: Tab, rows: seq<Row>)
    requires Tidy(t.view) && t.base <= |t.view.rows|
    requires T.SizesOk(|t.schema|, t.view.rows) && T.SizesOk(|t.schema|, rows)
    ensures var t' := TabInsert(env, t, rows);
            && t'.view == Insert(t.view, rows) && T.SizesOk(|t.schema|, t'.view.rows)
            && (t' == t.(view := t'.view) || (t' == t.(view := t'.view, base := |t'.view.rows|, flushed := 0) && t'.base > t.base))
  {
    OpsTidy(t.view, [], rows);
  }

  /** Every statement that fits, and every checkpoint that keeps the log, keeps the invariant. */
  lemma {:induction false} StepInv(env: Env, strict: bool, start: map<Name, Tab>, c: Cat, e: Event)
    requires Inv(env, strict, start, c) && EventOk(c, e) && EventFits(c, e) && (e.Checkpoint? ==> e.keepLog)
    ensures Inv(env, strict, start, Step(env, c, e))
  {
    hide Inv, T.RowsFit, Writable, TabInsert, RecordFits, Offset;
    match e
    case AddTable(name, cols) => AddTableInv(env, strict, start, c, name, cols);
    case InsertRows(name, rows) =>
      OpensLog(env, strict, start, c);
      if name in c.tables && rows != [] && Writable(c.tables[name].schema, rows) {
        InsertInv(env, strict, start, c, name, c.tables[name], W.Insert(name, ColTypes(c.tables[name].schema), rows), rows, []);
      }
    case DeleteRows(name, ids) =>
      if name in c.tables && ids != [] {
        DeleteInv(env, strict, start, c, name, ids);
      }
    case UpdateRows(name, ids, rows) =>
      OpensLog(env, strict, start, c);
      if name in c.tables && ids != [] && Writable(c.tables[name].schema, rows) {
        var t := c.tables[name];
        InsertInv(env, strict, start, c, name, TabDelete(t, ids), W.Update(name, ids, ColTypes(t.schema), rows), rows, ids);
      }
    case Checkpoint(_) => CheckpointsInv(env, strict, start, c);
  }

  lemma {:induction false} OpensLog(env: Env, strict: bool, start: map<Name, Tab>, c: Cat)
    requires Inv(env, strict, start, c)
    ensures Inv(env, strict, start, c.(walOpen := true))
  {
    hide TabInv, NoRecs;
  }

  lemma {:induction false} DeleteInv(env: Env, strict: bool, start: map<Name, Tab>, c: Cat, name: Name, ids: seq<nat>)
    requires Inv(env, strict, start, c) && name in c.tables
    ensures Inv(env, strict, start, WithTable(Logged(c, W.Delete(name, ids)), name, TabDelete(c.tables[name], ids)))
  {
    var t := c.tables[name];
    assert TabInv(env, strict, Start(start, name), t, name, c.log);
    hide Inv, TabInv;
    WriteStep(env, strict, start, c, name, TabDelete(t, ids), W.Delete(name, ids));
  }

  /** An insert, or an update whose tombstones are set, of rows that fit. */
  lemma {:induction false} InsertInv(env: Env, strict: bool, start: map<Name, Tab>, c: Cat, name: Name, u: Tab, r: W.Record,
                                     rows: seq<Row>, ids: seq<nat>)
    requires Inv(env, strict, start, c) && name in c.tables && T.RowsFit(c.tables[name].schema, rows)
    requires r.table == name && (r.Insert? || r.Update?) && r.rows == rows
    requires r.Insert? ==> u == c.tables[name]
    requires r.Update? ==> r.ids == ids && u == TabDelete(c.tables[name], ids)
    ensures Inv(env, strict, start, Written(env, c, name, u, r, rows))
  {
    var t := c.tables[name];
    assert TabInv(env, strict, Start(start, name), t, name, c.log);
    OpsTidy(t.view, ids, rows);
    InsertEffect(env, u, rows);
    hide Inv, TabInv, TabInsert, T.RowsFit;
    WriteStep(env, strict, start, c, name, TabInsert(env, u, rows), r);
  }

  lemma {:induction false} AddTableInv(env: Env, strict: bool, start: map<Name, Tab>, c: Cat, name: Name, cols: seq<W.Column>)
    requires Inv(env, strict, start, c)
    ensures Inv(env, strict, start, Step(env, c, AddTable(name, cols)))
  {
    var r := W.CreateTable(name, cols);
    OthersKeep(env, strict, start, c, name, r);
    if name in c.tables {
      var t := c.tables[name];
      assert TabInv(env, strict, Start(start, name), t, name, c.log);
      OwnRecord(env, strict, Start(start, name), t, t, name, c.log, r);
      assert c.tables[name := t] == c.tables;
      hide TabInv, NoRecs, Inv;
      TableStep(env, strict, start, c, name, t, c.log + [r]);
    } else {
      assert NoRecs(name, c.log) && Start(start, name) == None;
      hide TabInv, NoRecs, Inv, NewTab;
      NewTableInv(env, strict, name, c.log, cols);
      TableStep(env, strict, start, c, name, NewTab(KindsOf(cols)), c.log + [r]);
    }
  }

  lemma {:induction false} CheckpointsInv(env: Env, strict: bool, start: map<Name, Tab>, c: Cat)
    requires Inv(env, strict, start, c)
    ensures Inv(env, strict, start, Step(env, c, Checkpoint(true)))
  {
    var off := if c.walOpen then Offset(env, c.log) else 0;
    hide TabInv, NoRecs, Checkpointed, Offset;
    forall n | n in c.tables
      ensures TabInv(env, strict, Start(start, n), Checkpointed(c.tables[n], off), n, c.log)
    {
      CheckpointInv(env, strict, Start(start, n), c.tables[n], n, c.log, off);
    }
  }

  lemma {:induction false} StartInv(env: Env, strict: bool, start: map<Name, Tab>)
    requires AllDurable(start) && (strict ==> Loaded(start))
    ensures Inv(env, strict, start, Cat(start, [], false, false))
  {
    forall n | n in start
      ensures TabInv(env, strict, Start(start, n), start[n], n, [])
    {
      assert Durable(start[n]);
      if strict {
        assert LoadedTab(start[n]);
        assert CkAt(env, Start(start, n), [], n, Ck(start[n].lsn, start[n].ckRows), 0);
      }
    }
  }

  ghost predicate Keeping(es: seq<Event>) {
    forall i :: 0 <= i < |es| ==> es[i].Checkpoint? ==> es[i].keepLog
  }

  /** Every run whose statements fit and whose checkpoints keep the log keeps the invariant. */
  lemma {:induction false} RunInv(env: Env, strict: bool, start: map<Name, Tab>, c: Cat, es: seq<Event>)
    requires Inv(env, strict, start, c) && Run(env, c, es) && Fitting(env, c, es) && Keeping(es)
    ensures Inv(env, strict, start, After(env, c, es))
    decreases es
  {
    hide Inv, Step, EventOk, EventFits;
    if es != [] {
      StepInv(env, strict, start, c, es[0]);
      RunInv(env, strict, start, Step(env, c, es[0]), es[1..]);
    }
  }

  // ---- runs that delete logs ----

  /** The tables as they were when the log of the run's end was begun. */
  function Epoch(env: Env, start: map<Name, Tab>, c: Cat, es: seq<Event>): map<Name, Tab>
    decreases es
  {
    if es == [] then start
    else
      var d := Step(env, c, es[0]);
      Epoch(env, if es[0].Checkpoint? && !es[0].keepLog then d.tables else start, d, es[1..])
  }

  /** A checkpoint that deletes the log leaves all tables on the disk. */
  lemma {:induction false} DeletesInv(env: Env, strict: bool, start: map<Name, Tab>, c: Cat)
    requires Inv(env, strict, start, c)
    ensures var d := Step(env, c, Checkpoint(false));
            AllDurable(d.tables) && d == Cat(d.tables, [], false, false)
  {
    var d := Step(env, c, Checkpoint(false));
    forall n | n in d.tables
      ensures Durable(d.tables[n])
    {
      assert TabInv(env, strict, Start(start, n), c.tables[n], n, c.log);
    }
  }

  /** Whatever checkpoints a run makes, its tables agree with the log begun last. */
  lemma {:induction false} EpochInv(env: Env, start: map<Name, Tab>, c: Cat, es: seq<Event>)
    requires AllDurable(start) && Inv(env, false, start, c) && Run(env, c, es) && Fitting(env, c, es)
    ensures AllDurable(Epoch(env, start, c, es)) && Inv(env, false, Epoch(env, start, c, es), After(env, c, es))
    decreases es
  {
    hide Inv, Step, EventOk, EventFits, AllDurable;
    if es != [] {
      var d := Step(env, c, es[0]);
      if es[0].Checkpoint? && !es[0].keepLog {
        DeletesInv(env, false, start, c);
        StartInv(env, false, d.tables);
        EpochInv(env, d.tables, d, es[1..]);
      } else {
        StepInv(env, false, start, c, es[0]);
        EpochInv(env, start, d, es[1..]);
      }
    }
  }
}
