/** The catalog: its tables, what of them is on the disk, and the log it writes before it changes them. */
module Catalogs {
  import opened Bytes
  import opened Values
  import opened RowStore
  import opened CatalogLog
  import opened CatalogRun
  import opened CatalogRecovery
  import opened WalWriting
  import T = Tables
  import W = WalCodec
  import R = WalRoundTrip

  /** Of one table: how many rows of its write buffer are on the disk, and its stored checkpoint. */
  datatype Saved = Saved(flushed: nat, lsn: nat, rows: nat)

  /** A table and what is on the disk of it, as one value. */
  ghost function TabOf(t: T.Table, d: Saved): Tab
    requires t.Valid()
    reads t
  {
    Tab(t.schema, t.View(), t.wbBase, d.flushed, d.lsn, d.rows)
  }

  /** A table in order, with what is on the disk of it, is `tab`. */
  ghost predicate Linked(thr: nat, t: T.Table, d: Saved, tab: Tab)
    reads t
  {
    t.Valid() && t.threshold == thr && TabOf(t, d) == tab
  }

  lemma {:induction false} LinkedIs(thr: nat, t: T.Table, d: Saved, tab: Tab)
    requires Linked(thr, t, d, tab)
    ensures t.schema == tab.schema && t.wbBase == tab.base
  {
  }

  lemma {:induction false} DeleteKeeps(tab: Tab, ids: seq<nat>)
    ensures TabDelete(tab, ids).schema == tab.schema && TabDelete(tab, ids).base == tab.base
  {
  }

  /** The tables of which those named in `todo` are still to be saved. */
  ghost function PartlySaved(tabs: map<Name, Tab>, todo: set<Name>, off: nat): map<Name, Tab> {
    map n | n in tabs :: if n in todo then tabs[n] else Checkpointed(tabs[n], off)
  }

  lemma {:induction false} SavedOne(tabs: map<Name, Tab>, todo: set<Name>, off: nat, n: Name)
    requires n in tabs && n in todo
    ensures n in PartlySaved(tabs, todo, off) && PartlySaved(tabs, todo, off)[n] == tabs[n]
    ensures PartlySaved(tabs, todo, off)[n := Checkpointed(tabs[n], off)] == PartlySaved(tabs, todo - {n}, off)
  {
    hide Checkpointed;
  }

  /** Logging opens the log. */
  lemma {:induction false} WrittenOpens(env: Env, c: Cat, name: Name, t: Tab, r: W.Record, rows: seq<Row>)
    ensures Written(env, c, name, t, r, rows) == Written(env, c.(walOpen := true), name, t, r, rows)
  {
    hide TabInsert, T.RowsFit;
  }

  lemma {:induction false} WritableTyped(schema: Schema, rows: seq<Row>)
    requires Writable(schema, rows)
    ensures RowsTyped(ColTypes(schema), rows)
  {
  }

  lemma {:induction false} SeenRows(v: Store, rows: seq<Row>)
    ensures |Seen(Insert(v, rows)).rows| == |Insert(v, rows).rows| == |v.rows| + |rows|
  {
  }

  /** Inserting into a table is what the simple insert says, and is refused exactly if the rows do not fit. */
  method InsertInto(env: Env, t: T.Table, d: Saved, rows: seq<Row>, ghost tab: Tab) returns (ok: bool, d': Saved)
    requires Linked(env.threshold, t, d, tab)
    modifies t
    ensures ok <==> T.RowsFit(tab.schema, rows)
    ensures ok ==> Linked(env.threshold, t, d', TabInsert(env, tab, rows))
  {
    T.RowCounts(t);
    hide T.RowsFit, T.ViewOf, T.Contiguous, T.Aligned, T.Typed, Seen;
    var before := t.wbBase;
    ok := t.InsertMany(rows);
    d' := d;
    if ok {
      T.RowCounts(t);
      SeenRows(old(t.View()), rows);
      if t.wbBase > before {
        d' := d.(flushed := 0);
      }
    }
  }

  /** An update is a deletion and an insertion. */
  method UpdateIn(env: Env, t: T.Table, d: Saved, ids: seq<nat>, rows: seq<Row>, ghost tab: Tab) returns (ok: bool, d': Saved)
    requires Linked(env.threshold, t, d, tab)
    modifies t
    ensures ok <==> T.RowsFit(tab.schema, rows)
    ensures ok ==> Linked(env.threshold, t, d', TabInsert(env, TabDelete(tab, ids), rows))
  {
    T.RowCounts(t);
    hide T.RowsFit, T.ViewOf, T.Contiguous, T.Aligned, T.Typed, Seen;
    var before := t.wbBase;
    ok := t.UpdateRows(ids, rows);
    d' := d;
    if ok {
      T.RowCounts(t);
      SeenRows(Delete(old(t.View()), ids), rows);
      if t.wbBase > before {
        d' := d.(flushed := 0);
      }
    }
  }

  method DeleteIn(env: Env, t: T.Table, d: Saved, ids: seq<nat>, ghost tab: Tab)
    requires Linked(env.threshold, t, d, tab)
    modifies t
    ensures Linked(env.threshold, t, d, TabDelete(tab, ids))
  {
    hide T.ViewOf, T.Contiguous, T.Aligned, T.Typed;
    t.MarkDeleted(ids);
  }

  method NewTable(env: Env, cols: seq<W.Column>) returns (t: T.Table)
    requires cols != []
    ensures fresh(t) && Linked(env.threshold, t, Saved(0, 0, 0), NewTab(KindsOf(cols)))
  {
    t := new T.Table(KindsOf(cols), env.threshold);
  }

  /** Writes a table out: all its rows are on the disk, and its checkpoint says so. */
  method SaveTable(env: Env, t: T.Table, ghost d: Saved, off: nat, ghost tab: Tab) returns (d': Saved)
    requires Linked(env.threshold, t, d, tab)
    ensures Linked(env.threshold, t, d', Checkpointed(tab, off))
  {
    T.RowCounts(t);
    var n := t.RowCount();
    d' := Saved(|t.wb[0]|, off, n);
  }

  /** Replaying a record on a table is redoing it, and is refused exactly if its rows do not fit. */
  method RedoOn(env: Env, t: T.Table, d: Saved, r: W.Record, ghost tab: Tab) returns (ok: bool, d': Saved)
    requires Linked(env.threshold, t, d, tab)
    modifies t
    ensures ok <==> RecordFits(tab.schema, r.table, r)
    ensures ok ==> Linked(env.threshold, t, d', Redo(env, tab, r))
  {
    hide T.RowsFit, TabInsert, TabDelete, Linked;
    ok, d' := true, d;
    match r
    case Insert(_, _, rows) => ok, d' := InsertInto(env, t, d, rows, tab);
    case Delete(_, ids) => DeleteIn(env, t, d, ids, tab);
    case Update(_, ids, _, rows) => ok, d' := UpdateIn(env, t, d, ids, rows, tab);
    case _ =>
  }

  class Catalog {
    const env: Env
    var tables: map<Name, T.Table>
    var disk: map<Name, Saved>
    var wal: WalWriter?
    var refused: bool
    ghost var tabs: map<Name, Tab>
    ghost var owner: map<T.Table, Name>

    /** No two names share a table. */
    ghost predicate Named()
      reads this`tables, this`disk, this`tabs, this`owner
    {
      && (forall n :: n in tables ==> n in disk && n in tabs && tables[n] in owner && owner[tables[n]] == n)
      && (forall n :: n in tabs ==> n in tables)
    }

    ghost predicate WalOk()
      reads this`wal, wal
    {
      wal != null ==> wal.Valid() && wal.hash == env.hash && wal.head == W.HEADER
    }

    /** Every table but those of `but` is what `tabs` says. */
    ghost predicate Holds(but: set<Name>)
      requires Named()
      reads this`tables, this`disk, this`tabs, this`owner, owner.Keys
    {
      forall n :: n in tables && n !in but ==> Linked(env.threshold, tables[n], disk[n], tabs[n])
    }

    ghost predicate Valid()
      reads this, owner.Keys, wal
    {
      Named() && WalOk() && (!refused ==> Holds({}))
    }

    ghost function Log(): seq<W.Record>
      reads this`wal, wal
    {
      if wal == null then [] else wal.log
    }

    ghost function State(): Cat
      reads this, wal
    {
      Cat(tabs, Log(), wal != null, refused)
    }

    /** Is in state `c`; of a catalog that has refused rows, only what it logged counts. */
    ghost predicate Refines(c: Cat)
      reads this, wal
    {
      State() == if refused then c.(tables := tabs) else c
    }

    /** No table and no log but its own, and new ones. */
    twostate predicate Own()
      reads this`wal, this`owner
    {
      && (forall t :: t in owner ==> t in old(owner) || fresh(t))
      && (wal == null || wal == old(wal) || fresh(wal))
    }

    constructor (e: Env)
      ensures Valid() && env == e && fresh(owner.Keys) && State() == Cat(map[], [], false, false)
    {
      env := e;
      tables, disk, wal, refused := map[], map[], null, false;
      tabs, owner := map[], map[];
    }

    // ---- the tables ----

    /** Takes in a table under a name of its own. */
    method Enter(name: Name, t: T.Table, d: Saved, ghost tab: Tab)
      requires Named() && Holds({}) && name !in tables && t !in owner && Linked(env.threshold, t, d, tab)
      modifies this`tables, this`disk, this`tabs, this`owner
      ensures Named() && Holds({}) && tabs == old(tabs)[name := tab] && owner.Keys == old(owner.Keys) + {t}
    {
      hide Linked;
      tables := tables[name := t];
      disk := disk[name := d];
      tabs := tabs[name := tab];
      owner := owner[t := name];
    }

    /** Says what a changed table now is. */
    method Change(name: Name, d: Saved, ghost tab: Tab)
      requires Named() && name in tables && Holds({name}) && Linked(env.threshold, tables[name], d, tab)
      modifies this`disk, this`tabs
      ensures Named() && Holds({}) && tabs == old(tabs)[name := tab]
    {
      hide Linked;
      disk := disk[name := d];
      tabs := tabs[name := tab];
    }

    /** Inserts into one table; the others stay. */
    method InsertOne(name: Name, rows: seq<Row>) returns (ok: bool)
      requires Named() && Holds({}) && name in tables
      modifies this`disk, this`tabs, tables[name]
      ensures Named() && (ok <==> T.RowsFit(old(tabs)[name].schema, rows))
      ensures ok ==> Holds({}) && tabs == old(tabs)[name := TabInsert(env, old(tabs)[name], rows)]
    {
      hide Linked, T.RowsFit, TabInsert;
      var d;
      ok, d := InsertInto(env, tables[name], disk[name], rows, tabs[name]);
      if ok {
        Change(name, d, TabInsert(env, tabs[name], rows));
      }
    }

    method UpdateOne(name: Name, ids: seq<nat>, rows: seq<Row>) returns (ok: bool)
      requires Named() && Holds({}) && name in tables
      modifies this`disk, this`tabs, tables[name]
      ensures Named() && (ok <==> T.RowsFit(old(tabs)[name].schema, rows))
      ensures ok ==> Holds({}) && tabs == old(tabs)[name := TabInsert(env, TabDelete(old(tabs)[name], ids), rows)]
    {
      hide Linked, T.RowsFit, TabInsert, TabDelete;
      var d;
      ok, d := UpdateIn(env, tables[name], disk[name], ids, rows, tabs[name]);
      if ok {
        Change(name, d, TabInsert(env, TabDelete(tabs[name], ids), rows));
      }
    }

    method DeleteOne(name: Name, ids: seq<nat>)
      requires Named() && Holds({}) && name in tables
      modifies this`disk, this`tabs, tables[name]
      ensures Named() && Holds({}) && tabs == old(tabs)[name := TabDelete(old(tabs)[name], ids)]
    {
      hide Linked, TabDelete;
      DeleteIn(env, tables[name], disk[name], ids, tabs[name]);
      Change(name, disk[name], TabDelete(tabs[name], ids));
    }

    method SaveOne(name: Name, off: nat)
      requires Named() && Holds({}) && name in tables
      modifies this`disk, this`tabs
      ensures Named() && Holds({}) && tabs == old(tabs)[name := Checkpointed(old(tabs)[name], off)]
    {
      hide Linked, Checkpointed;
      var d := SaveTable(env, tables[name], disk[name], off, tabs[name]);
      Change(name, d, Checkpointed(tabs[name], off));
    }

    // ---- the statements ----

    /** Opens the log if it is not open. */
    method EnsureWal()
      requires WalOk()
      modifies this`wal
      ensures wal != null && WalOk() && Log() == old(Log())
      ensures if old(wal) == null then fresh(wal) else wal == old(wal)
    {
      if wal == null {
        wal := new WalWriter(env.hash, Missing);
      }
    }

    method LogNew(name: Name, cols: seq<W.Column>)
      requires Valid() && !refused && wal != null
      modifies wal
      ensures Valid() && State() == Logged(old(State()), W.CreateTable(name, cols))
    {
      hide Linked, WalWriter.Valid;
      wal.LogCreateTable(name, cols);
    }

    method CreateNew(name: Name, cols: seq<W.Column>)
      requires Valid() && !refused && cols != [] && name !in tables
      modifies this`tables, this`disk, this`tabs, this`owner
      ensures Valid() && Own() && tabs == old(tabs)[name := NewTab(KindsOf(cols))]
    {
      hide Linked, KindsOf, NewTab, WalWriter.Valid;
      var t := NewTable(env, cols);
      Enter(name, t, Saved(0, 0, 0), NewTab(KindsOf(cols)));
    }

    lemma {:induction false} SameNames(name: Name)
      requires Valid()
      ensures name in tables <==> name in tabs
    {
    }

    /** Logs the new table first, and creates it unless there is one of that name. */
    method AddTable(name: Name, cols: seq<W.Column>)
      requires Valid() && !refused && cols != []
      modifies this`tables, this`disk, this`tabs, this`owner, this`wal, wal
      ensures Valid() && Own() && State() == Step(env, old(State()), Event.AddTable(name, cols))
    {
      SameNames(name);
      hide Linked, WalWriter.Valid, KindsOf, NewTab;
      EnsureWal();
      hide Named, Holds, WalOk, Valid;
      LogNew(name, cols);
      if name !in tables {
        CreateNew(name, cols);
      }
    }

    method DeleteRows(name: Name, ids: seq<nat>)
      requires Valid() && !refused
      modifies this`disk, this`tabs, this`refused, this`wal, wal, owner.Keys
      ensures Valid() && Own() && State() == Step(env, old(State()), Event.DeleteRows(name, ids))
    {
      hide Linked, TabDelete, WalWriter.Valid;
      if ids == [] || name !in tables {
        return;
      }
      EnsureWal();
      wal.LogDelete(name, ids);
      DeleteOne(name, ids);
    }

    /** Logs an insert. */
    method LogRows(name: Name, rows: seq<Row>)
      requires Valid() && !refused && wal != null && name in tables
      requires rows != [] && name in tabs && Writable(tabs[name].schema, rows)
      modifies wal
      ensures Valid() && State() == Logged(old(State()), W.Insert(name, ColTypes(tabs[name].schema), rows))
    {
      LinkedIs(env.threshold, tables[name], disk[name], tabs[name]);
      WritableTyped(tables[name].schema, rows);
      hide Linked, WalWriter.Valid, Writable, ColTypes, RowsTyped;
      wal.LogInsert(name, ColTypes(tables[name].schema), rows);
    }

    method LogChange(name: Name, ids: seq<nat>, rows: seq<Row>)
      requires Valid() && !refused && wal != null && name in tables
      requires name in tabs && Writable(tabs[name].schema, rows)
      modifies wal
      ensures Valid() && State() == Logged(old(State()), W.Update(name, ids, ColTypes(tabs[name].schema), rows))
    {
      LinkedIs(env.threshold, tables[name], disk[name], tabs[name]);
      WritableTyped(tables[name].schema, rows);
      hide Linked, WalWriter.Valid, Writable, ColTypes, RowsTyped;
      wal.LogUpdate(name, ids, ColTypes(tables[name].schema), rows);
    }

    /** Inserts; a table that refuses the rows is noted. */
    method TryInsert(name: Name, rows: seq<Row>)
      requires Valid() && !refused && name in tables && name in tabs
      modifies this`disk, this`tabs, this`refused, tables[name]
      ensures Valid() && Log() == old(Log()) && (refused <==> !T.RowsFit(old(tabs)[name].schema, rows))
      ensures !refused ==> tabs == old(tabs)[name := TabInsert(env, old(tabs)[name], rows)]
    {
      hide Linked, WalWriter.Valid, T.RowsFit, TabInsert;
      var ok := InsertOne(name, rows);
      refused := !ok;
    }

    method TryUpdate(name: Name, ids: seq<nat>, rows: seq<Row>)
      requires Valid() && !refused && name in tables && name in tabs
      modifies this`disk, this`tabs, this`refused, tables[name]
      ensures Valid() && Log() == old(Log()) && (refused <==> !T.RowsFit(old(tabs)[name].schema, rows))
      ensures !refused ==> tabs == old(tabs)[name := TabInsert(env, TabDelete(old(tabs)[name], ids), rows)]
    {
      hide Linked, WalWriter.Valid, T.RowsFit, TabInsert, TabDelete;
      var ok := UpdateOne(name, ids, rows);
      refused := !ok;
    }

    /** Notes a seal that the last operation made. */
    method NoteSeal(name: Name, before: nat)
      requires Valid() && !refused && wal != null && name in tables
      modifies wal
      ensures Valid() && name in tabs && State() == Flushed(old(State()), name, before, tabs[name].base)
    {
      LinkedIs(env.threshold, tables[name], disk[name], tabs[name]);
      hide Linked, WalWriter.Valid;
      var after := tables[name].wbBase;
      if after > before {
        wal.LogSegmentFlush(name, after);
      }
    }

    lemma {:induction false} TabIs(name: Name)
      requires Valid() && !refused && name in tables
      ensures name in tabs && tables[name].wbBase == tabs[name].base && tables[name].schema == tabs[name].schema
    {
      LinkedIs(env.threshold, tables[name], disk[name], tabs[name]);
    }

    /** Logs the rows first, and then inserts them. */
    method WriteRows(name: Name, rows: seq<Row>)
      requires Valid() && !refused && wal != null && name in tables
      requires rows != [] && name in tabs && Writable(tabs[name].schema, rows)
      modifies this`disk, this`tabs, this`refused, wal, owner.Keys
      ensures Valid()
      ensures var t := old(tabs)[name];
              Refines(Written(env, old(State()), name, t, W.Insert(name, ColTypes(t.schema), rows), rows))
    {
      TabIs(name);
      InOwner(name);
      hide Valid, TabInsert, T.RowsFit, Writable, ColTypes;
      var before := tables[name].wbBase;
      LogRows(name, rows);
      TryInsert(name, rows);
      if !refused {
        NoteSeal(name, before);
      }
    }

    lemma {:induction false} InOwner(name: Name)
      requires Valid() && name in tables
      ensures tables[name] in owner
    {
    }

    /** An update is logged, deletes the rows it replaces and inserts the new ones. */
    method ChangeRows(name: Name, ids: seq<nat>, rows: seq<Row>)
      requires Valid() && !refused && wal != null && name in tables
      requires name in tabs && Writable(tabs[name].schema, rows)
      modifies this`disk, this`tabs, this`refused, wal, owner.Keys
      ensures Valid()
      ensures var t := old(tabs)[name];
              Refines(Written(env, old(State()), name, TabDelete(t, ids), W.Update(name, ids, ColTypes(t.schema), rows), rows))
    {
      TabIs(name);
      InOwner(name);
      DeleteKeeps(tabs[name], ids);
      hide Valid, TabInsert, TabDelete, T.RowsFit, Writable, ColTypes;
      var before := tables[name].wbBase;
      LogChange(name, ids, rows);
      TryUpdate(name, ids, rows);
      if !refused {
        NoteSeal(name, before);
      }
    }

    method InsertRows(name: Name, rows: seq<Row>)
      requires Valid() && !refused
      modifies this`disk, this`tabs, this`refused, this`wal, wal, owner.Keys
      ensures Valid() && Own() && Refines(Step(env, old(State()), Event.InsertRows(name, rows)))
    {
      hide Linked, WalWriter.Valid, Writable, ColTypes, Written;
      if name !in tables {
        return;
      }
      EnsureWal();
      LinkedIs(env.threshold, tables[name], disk[name], tabs[name]);
      if rows == [] || !Writable(tables[name].schema, rows) {
        return;
      }
      ghost var c := old(State());
      WrittenOpens(env, c, name, c.tables[name], W.Insert(name, ColTypes(c.tables[name].schema), rows), rows);
      WriteRows(name, rows);
    }

    method UpdateRows(name: Name, ids: seq<nat>, rows: seq<Row>)
      requires Valid() && !refused
      modifies this`disk, this`tabs, this`refused, this`wal, wal, owner.Keys
      ensures Valid() && Own() && Refines(Step(env, old(State()), Event.UpdateRows(name, ids, rows)))
    {
      hide Linked, TabDelete, WalWriter.Valid, Writable, ColTypes, Written;
      if ids == [] || name !in tables {
        return;
      }
      EnsureWal();
      LinkedIs(env.threshold, tables[name], disk[name], tabs[name]);
      if !Writable(tables[name].schema, rows) {
        return;
      }
      ghost var c := old(State());
      WrittenOpens(env, c, name, TabDelete(c.tables[name], ids), W.Update(name, ids, ColTypes(c.tables[name].schema), rows), rows);
      ChangeRows(name, ids, rows);
    }

    /** Saves every table. */
    method SaveAll(off: nat)
      requires Valid() && !refused
      modifies this`disk, this`tabs
      ensures Valid() && tabs == map n | n in old(tabs) :: Checkpointed(old(tabs)[n], off)
    {
      hide Linked, Checkpointed, WalOk;
      ghost var before := tabs;
      var todo := tables.Keys;
      assert PartlySaved(before, todo, off) == before;
      while todo != {}
        invariant Named() && Holds({}) && todo <= tables.Keys
        invariant tabs == PartlySaved(before, todo, off)
        decreases todo
      {
        var n :| n in todo;
        SavedOne(before, todo, off, n);
        SaveOne(n, off);
        todo := todo - {n};
      }
    }

    lemma {:induction false} WalOffset()
      requires WalOk() && wal != null
      ensures wal.offset == Offset(env, Log())
    {
    }

    /** Saves every table with the end of the log as its checkpoint; the log may then go. */
    method FlushAll(keepLog: bool)
      requires Valid() && !refused
      modifies this
      ensures Valid() && Own() && State() == Step(env, old(State()), Checkpoint(keepLog))
    {
      if wal != null {
        WalOffset();
      }
      hide Linked, Checkpointed, WalWriter.Valid, Offset, Named, Holds;
      SaveAll(if wal == null then 0 else wal.offset);
      if !keepLog {
        wal := null;
      }
    }

    method Do(e: Event)
      requires Valid() && !refused && EventOk(State(), e)
      modifies this, wal, owner.Keys
      ensures Valid() && Own() && Refines(Step(env, old(State()), e))
    {
      hide Valid, Step, Log;
      match e
      case AddTable(name, cols) => AddTable(name, cols);
      case InsertRows(name, rows) => InsertRows(name, rows);
      case DeleteRows(name, ids) => DeleteRows(name, ids);
      case UpdateRows(name, ids, rows) => UpdateRows(name, ids, rows);
      case Checkpoint(keepLog) => FlushAll(keepLog);
    }

    /** The statements of a run, one after the other. */
    method DoAll(es: seq<Event>)
      requires Valid() && !refused && Run(env, State(), es)
      modifies this, wal, owner.Keys
      ensures Valid() && Own() && Refines(After(env, old(State()), es))
      ensures wal != null ==> wal.file == W.HEADER + W.EncodeAll(env.hash, After(env, old(State()), es).log)
      decreases es
    {
      FileIs();
      hide Valid, EventOk, Step, W.EncodeAll;
      if es != [] {
        Do(es[0]);
        FileIs();
        if !refused {
          DoAll(es[1..]);
        } else {
          assert es[1..] == [];
        }
      }
    }

    lemma {:induction false} FileIs()
      requires Valid()
      ensures wal != null ==> wal.file == W.HEADER + W.EncodeAll(env.hash, Log())
    {
    }
  }
}
