/** What recovery does not get back: statements refused after they were logged, and logs that were deleted. */
module RecoveryLimits {
  import opened Options
  import opened Bytes
  import opened Values
  import opened RowStore
  import opened CatalogLog
  import opened CatalogRun
  import opened CatalogRecovery
  import opened RecoveryExact
  import T = Tables
  import F = ColumnFiles
  import W = WalCodec

  function Fresh(start: map<Name, Tab>): Cat {
    Cat(start, [], false, false)
  }

  /** Whenever the run is cut off by a crash, loading succeeds and gives every table as the log says. */
  ghost predicate AlwaysRecovers(env: Env, start: map<Name, Tab>, es: seq<Event>) {
    forall k, images :: 0 <= k <= |es| && CrashImages(After(env, Fresh(start), es[..k]), images) ==>
      Recovers(env, start, After(env, Fresh(start), es[..k]), images)
  }

  ghost predicate Recovers(env: Env, start: map<Name, Tab>, c: Cat, images: map<Name, Image>) {
    && (forall n :: Loads(n, Get(images, n), Entries(env, c.log)))
    && (forall n :: Exact(env, start, images, c.log, n))
  }

  lemma {:induction false} Prefixes(env: Env, c: Cat, es: seq<Event>, k: nat)
    requires Run(env, c, es) && k <= |es|
    ensures Run(env, c, es[..k])
    ensures k < |es| ==> var d := After(env, c, es[..k]);
              !d.refused && EventOk(d, es[k]) && After(env, c, es[..k + 1]) == Step(env, d, es[k])
    decreases es
  {
    hide Step, EventOk;
    if k > 0 {
      Prefixes(env, Step(env, c, es[0]), es[1..], k - 1);
      assert es[..k][0] == es[0] && es[..k][1..] == es[1..][..k - 1];
      if k < |es| {
        assert es[..k + 1][0] == es[0] && es[..k + 1][1..] == es[1..][..k];
      }
    } else {
      assert es[..0] == [];
      if es != [] {
        assert es[..1] == [es[0]] && [es[0]][1..] == [];
        assert After(env, c, [es[0]]) == After(env, Step(env, c, es[0]), []);
      }
    }
  }

  lemma {:induction false} FittingPrefix(env: Env, c: Cat, es: seq<Event>, k: nat)
    requires Fitting(env, c, es) && k <= |es|
    ensures Fitting(env, c, es[..k])
    decreases es
  {
    hide Step, EventFits;
    if k > 0 {
      FittingPrefix(env, Step(env, c, es[0]), es[1..], k - 1);
      assert es[..k][0] == es[0] && es[..k][1..] == es[1..][..k - 1];
    }
  }

  /** The first statement of a run that does not fit. */
  lemma {:induction false} FirstMisfit(env: Env, c: Cat, es: seq<Event>) returns (k: nat)
    requires !Fitting(env, c, es)
    ensures k < |es| && Fitting(env, c, es[..k]) && !EventFits(After(env, c, es[..k]), es[k])
    decreases es
  {
    hide Step, EventFits;
    if !EventFits(c, es[0]) {
      k := 0;
      assert es[..0] == [];
    } else {
      var j := FirstMisfit(env, Step(env, c, es[0]), es[1..]);
      k := j + 1;
      assert es[..k][0] == es[0] && es[..k][1..] == es[1..][..j];
    }
  }

  lemma {:induction false} KeepingPrefix(es: seq<Event>, k: nat)
    requires Keeping(es) && k <= |es|
    ensures Keeping(es[..k])
  {
  }

  /** A run whose statements fit is recovered wherever it is cut off. */
  lemma {:induction false} FittingRecovers(env: Env, start: map<Name, Tab>, es: seq<Event>, images: map<Name, Image>)
    requires Loaded(start) && Run(env, Fresh(start), es) && Fitting(env, Fresh(start), es) && Keeping(es)
    requires CrashImages(After(env, Fresh(start), es), images)
    ensures Recovers(env, start, After(env, Fresh(start), es), images)
  {
    var c := After(env, Fresh(start), es);
    LoadedDurable(start);
    StartInv(env, true, start);
    RunInv(env, true, start, Fresh(start), es);
    CrashHeads(c, images);
    assert c.log + [] == c.log;
    hide *;
    NothingPending(c);
    LoadIff(env, start, c, images, []);
    forall n
      ensures Exact(env, start, images, c.log, n)
    {
      RecoveryIsExact(env, start, c, images, [], n);
    }
    RecoversMeans(env, start, c, images);
  }

  lemma {:induction false} NothingPending(c: Cat)
    ensures Pending(c, []) && MoreFits(c, [])
  {
  }

  lemma {:induction false} RecoversMeans(env: Env, start: map<Name, Tab>, c: Cat, images: map<Name, Image>)
    requires forall n :: Loads(n, Get(images, n), Entries(env, c.log))
    requires forall n :: Exact(env, start, images, c.log, n)
    ensures Recovers(env, start, c, images)
  {
  }

  // ---- a crash after a refused statement ----

  function TornAll(t: Tab): (cols: T.Columns)
    requires t.base <= |t.view.rows| && T.SizesOk(|t.schema|, t.view.rows)
    ensures |cols| == |t.schema|
    ensures forall c :: 0 <= c < |t.schema| ==> |cols[c]| == |t.view.rows| - t.base
    ensures forall c, i :: 0 <= c < |t.schema| && 0 <= i < |t.view.rows| - t.base ==> cols[c][i] == t.view.rows[t.base + i][c]
  {
    seq(|t.schema|, c requires 0 <= c < |t.schema| =>
      seq(|t.view.rows| - t.base, i requires 0 <= i < |t.view.rows| - t.base => t.view.rows[t.base + i][c]))
  }

  ghost predicate Whole(t: Tab) {
    t.base + t.flushed <= |t.view.rows| && T.SizesOk(|t.schema|, t.view.rows)
  }

  /** A crash that loses no row of the write buffer. */
  ghost function Intact(t: Tab): Image
    requires Whole(t)
  {
    Image(t.schema, t.view.rows[..t.base], TornAll(t), t.view.dead, t.lsn, t.ckRows)
  }

  lemma {:induction false} IntactCrash(t: Tab)
    requires Whole(t)
    ensures CrashOf(t, Intact(t))
  {
    hide TornAll;
    var img := Intact(t);
    forall c | 0 <= c < |t.schema|
      ensures TornColumn(t, img.torn[c], c)
    {
    }
  }

  /** Every state of a catalog can be left by a crash. */
  lemma {:induction false} SomeCrash(c: Cat) returns (images: map<Name, Image>)
    requires forall n :: n in c.tables ==> Whole(c.tables[n])
    ensures CrashImages(c, images)
  {
    images := map n | n in c.tables :: Intact(c.tables[n]);
    hide Whole, Intact, CrashOf;
    forall n | n in images
      ensures CrashOf(c.tables[n], images[n])
    {
      IntactCrash(c.tables[n]);
    }
  }

  /** The record of a statement that does not fit. */
  ghost function Misfit(c: Cat, e: Event): W.Record
    requires !EventFits(c, e)
  {
    if e.InsertRows? then W.Insert(e.name, ColTypes(c.tables[e.name].schema), e.rows)
    else W.Update(e.name, e.ids, ColTypes(c.tables[e.name].schema), e.rows)
  }

  /** The statement is logged and refused; only tombstones change. */
  lemma {:induction false} MisfitStep(env: Env, c: Cat, e: Event)
    requires !c.refused && EventOk(c, e) && !EventFits(c, e)
    ensures var d, r := Step(env, c, e), Misfit(c, e);
            && d.log == c.log + [r] && d.refused && e.name in c.tables
            && Pending(c, [r]) && !MoreFits(c, [r])
            && d.tables.Keys == c.tables.Keys && forall n :: n in c.tables ==> SameRows(c.tables[n], d.tables[n])
  {
    EmptyFits(c, e);
    hide T.RowsFit, Writable, TabInsert, T.SizesOk;
  }

  /** Two states of a table that differ in tombstones only. */
  ghost predicate SameRows(t: Tab, u: Tab) {
    u == t.(view := u.view) && u.view.rows == t.view.rows
  }

  lemma {:induction false} MisfitHeads(c: Cat, d: Cat, images: map<Name, Image>)
    requires d.tables.Keys == c.tables.Keys && forall n :: n in c.tables ==> SameRows(c.tables[n], d.tables[n])
    requires CrashImages(d, images)
    ensures HeadsOf(c, images)
  {
    forall n | n in images
      ensures HeadOf(c.tables[n], images[n])
    {
      assert CrashOf(d.tables[n], images[n]) && SameRows(c.tables[n], d.tables[n]);
    }
  }

  lemma {:induction false} MisfitWhole(env: Env, start: map<Name, Tab>, c: Cat, d: Cat)
    requires Inv(env, true, start, c)
    requires d.tables.Keys == c.tables.Keys && forall n :: n in c.tables ==> SameRows(c.tables[n], d.tables[n])
    ensures forall n :: n in d.tables ==> Whole(d.tables[n])
  {
    forall n | n in d.tables
      ensures Whole(d.tables[n])
    {
      assert TabInv(env, true, Start(start, n), c.tables[n], n, c.log) && SameRows(c.tables[n], d.tables[n]);
    }
  }

  /** After a statement that does not fit, no crash can be recovered from: load ends with an error. */
  lemma {:induction false} MisfitFails(env: Env, start: map<Name, Tab>, c: Cat, e: Event, images: map<Name, Image>)
    requires Inv(env, true, start, c) && EventOk(c, e) && !EventFits(c, e) && CrashImages(Step(env, c, e), images)
    ensures !(forall n :: Loads(n, Get(images, n), Entries(env, Step(env, c, e).log)))
  {
    hide *;
    NotRefused(env, start, c);
    MisfitStep(env, c, e);
    MisfitHeads(c, Step(env, c, e), images);
    LoadIff(env, start, c, images, [Misfit(c, e)]);
  }

  lemma {:induction false} NotRefused(env: Env, start: map<Name, Tab>, c: Cat)
    requires Inv(env, true, start, c)
    ensures !c.refused
  {
  }

  /** A run since a load is recovered from every crash if and only if all its statements fit. */
  lemma {:induction false} AlwaysRecoversIff(env: Env, start: map<Name, Tab>, es: seq<Event>)
    requires Loaded(start) && Run(env, Fresh(start), es) && Keeping(es)
    ensures AlwaysRecovers(env, start, es) <==> Fitting(env, Fresh(start), es)
  {
    if Fitting(env, Fresh(start), es) {
      hide Run, Fitting, Keeping, CrashImages, Recovers, After, Fresh;
      forall k, images | 0 <= k <= |es| && CrashImages(After(env, Fresh(start), es[..k]), images)
        ensures Recovers(env, start, After(env, Fresh(start), es[..k]), images)
      {
        Prefixes(env, Fresh(start), es, k);
        FittingPrefix(env, Fresh(start), es, k);
        KeepingPrefix(es, k);
        FittingRecovers(env, start, es[..k], images);
      }
    } else {
      var k, images := Unrecovered(env, start, es);
      assert CrashImages(After(env, Fresh(start), es[..k]), images);
    }
  }

  lemma {:induction false} Unrecovered(env: Env, start: map<Name, Tab>, es: seq<Event>) returns (k: nat, images: map<Name, Image>)
    requires Loaded(start) && Run(env, Fresh(start), es) && Keeping(es) && !Fitting(env, Fresh(start), es)
    ensures k <= |es| && CrashImages(After(env, Fresh(start), es[..k]), images)
    ensures !Recovers(env, start, After(env, Fresh(start), es[..k]), images)
  {
    LoadedDurable(start);
    StartInv(env, true, start);
    hide *;
    var j := FirstMisfit(env, Fresh(start), es);
    Prefixes(env, Fresh(start), es, j);
    KeepingPrefix(es, j);
    RunInv(env, true, start, Fresh(start), es[..j]);
    var c := After(env, Fresh(start), es[..j]);
    var d := Step(env, c, es[j]);
    MisfitStep(env, c, es[j]);
    MisfitWhole(env, start, c, d);
    images := SomeCrash(d);
    MisfitFails(env, start, c, es[j], images);
    NotLoaded(env, start, d, images);
    k := j + 1;
  }

  lemma {:induction false} NotLoaded(env: Env, start: map<Name, Tab>, c: Cat, images: map<Name, Image>)
    requires !(forall n :: Loads(n, Get(images, n), Entries(env, c.log)))
    ensures !Recovers(env, start, c, images)
  {
  }

  // ---- a statement that is logged and refused ----

  /** A column of one-byte strings without NULLs. */
  function ShortColumn(): seq<W.Column> {
    [W.Column([97], VARCHAR, false, 1, W.NoDefault)]
  }

  lemma {:induction false} ShortFits(s: Name)
    ensures T.RowsFit(KindsOf(ShortColumn()), [[Str(s)]]) <==> |s| <= 1
    ensures Writable(KindsOf(ShortColumn()), [[Str(s)]])
  {
    var k := KindsOf(ShortColumn())[0];
    assert k == F.Kind(VARCHAR, false, 1);
    assert F.CapacityOf(k) >= 1;
    hide F.CapacityOf;
    var rows := [[Str(s)]];
    assert F.Accepts(k, rows[0][0]) <==> |s| <= 1;
  }

  function TooLongRun(n: Name): seq<Event> {
    [AddTable(n, ShortColumn()), InsertRows(n, [[Str([97])]]), UpdateRows(n, [0], [[Str([97, 98])]])]
  }

  /** An update that writes a string of two bytes into a column of one: the catalog after the two statements before. */
  lemma {:induction false} BeforeTooLong(env: Env, n: Name)
    ensures var c, e := After(env, Fresh(map[]), TooLongRun(n)[..2]), TooLongRun(n)[2];
            && Run(env, Fresh(map[]), TooLongRun(n)[..2]) && Fitting(env, Fresh(map[]), TooLongRun(n)[..2])
            && !c.refused && EventOk(c, e) && !EventFits(c, e)
  {
    var es, c0 := TooLongRun(n), Fresh(map[]);
    var schema := KindsOf(ShortColumn());
    var c1 := Step(env, c0, es[0]);
    assert c1.tables == map[n := NewTab(schema)] && !c1.refused;
    ShortFits([97]);
    ShortFits([97, 98]);
    hide T.RowsFit, Writable, KindsOf, TabInsert;
    KeepsSchema(env, c1.tables[n], [], [[Str([97])]]);
    var c2 := Step(env, c1, es[1]);
    assert n in c2.tables && c2.tables[n].schema == schema && !c2.refused;
    assert |schema| == 1;
    assert es[..2] == [es[0], es[1]];
    TwoSteps(env, c0, es[0], es[1]);
    TwoFit(env, c0, es[0], es[1]);
  }

  lemma {:induction false} TwoSteps(env: Env, c: Cat, d: Event, e: Event)
    requires !c.refused && EventOk(c, d) && !Step(env, c, d).refused && EventOk(Step(env, c, d), e)
    ensures Run(env, c, [d, e]) && After(env, c, [d, e]) == Step(env, Step(env, c, d), e)
  {
    hide Step, EventOk;
    assert [d, e][1..] == [e] && [e][1..] == [];
    var c1 := Step(env, c, d);
    assert After(env, c1, [e]) == After(env, Step(env, c1, e), []);
    assert Run(env, Step(env, c1, e), []);
    assert Run(env, c1, [e]);
  }

  lemma {:induction false} TwoFit(env: Env, c: Cat, d: Event, e: Event)
    requires EventFits(c, d) && EventFits(Step(env, c, d), e)
    ensures Fitting(env, c, [d, e])
  {
    hide Step, EventFits;
    assert [d, e][1..] == [e] && [e][1..] == [];
    var c1 := Step(env, c, d);
    assert Fitting(env, Step(env, c1, e), []);
    assert Fitting(env, c1, [e]);
  }

  /** After that update, whatever the crash leaves, load ends with an error and nothing is recovered. */
  lemma {:induction false} TooLongNeverLoads(env: Env, n: Name, images: map<Name, Image>)
    requires CrashImages(Step(env, After(env, Fresh(map[]), TooLongRun(n)[..2]), TooLongRun(n)[2]), images)
    ensures !(forall m :: Loads(m, Get(images, m),
                Entries(env, Step(env, After(env, Fresh(map[]), TooLongRun(n)[..2]), TooLongRun(n)[2]).log)))
  {
    var start: map<Name, Tab> := map[];
    BeforeTooLong(env, n);
    StartInv(env, true, start);
    assert Keeping(TooLongRun(n)[..2]);
    hide *;
    RunInv(env, true, start, Fresh(start), TooLongRun(n)[..2]);
    MisfitFails(env, start, After(env, Fresh(start), TooLongRun(n)[..2]), TooLongRun(n)[2], images);
  }

  // ---- a log that was deleted ----

  /** After any run, also one that deletes logs, a table comes back as it was if and only if it is in step. */
  lemma {:induction false} EpochIff(env: Env, start: map<Name, Tab>, es: seq<Event>, images: map<Name, Image>, n: Name)
    requires AllDurable(start) && Run(env, Fresh(start), es) && Fitting(env, Fresh(start), es)
    requires var c := After(env, Fresh(start), es); CrashImages(c, images) && n in c.tables
    ensures var c := After(env, Fresh(start), es);
            && n in images && Loads(n, Get(images, n), Entries(env, c.log))
            && (LoadTab(env, n, images[n], Entries(env, c.log)).view == c.tables[n].view
                <==> InStep(env, n, Start(Epoch(env, start, Fresh(start), es), n), c.tables[n], c.log, c.log))
  {
    var c, base := After(env, Fresh(start), es), Epoch(env, start, Fresh(start), es);
    StartInv(env, false, start);
    EpochInv(env, start, Fresh(start), es);
    hide *;
    EpochFacts(env, base, c, images, n);
    assert c.log + [] == c.log;
    NoneBeyond(env, n, c.tables[n], c.log);
    TableIff(env, n, Start(base, n), c.tables[n], images[n], c.log, []);
    WeakLoads(env, n, Start(base, n), c.tables[n], images[n], c.log);
    GetIs(images, n);
  }

  lemma {:induction false} GetIs(images: map<Name, Image>, n: Name)
    requires n in images
    ensures Get(images, n) == Some(images[n])
  {
  }

  lemma {:induction false} NoneBeyond(env: Env, n: Name, t: Tab, log: seq<W.Record>)
    ensures CutOf(env, log + [], Eff(env, n, Ck(t.lsn, t.ckRows), log).lsn) <= |log|
  {
    assert log + [] == log;
  }

  lemma {:induction false} EpochFacts(env: Env, base: map<Name, Tab>, c: Cat, images: map<Name, Image>, n: Name)
    requires AllDurable(base) && Inv(env, false, base, c) && CrashImages(c, images) && n in c.tables
    ensures TidyOpt(Start(base, n)) && TabInv(env, false, Start(base, n), c.tables[n], n, c.log)
    ensures n in images && CrashOf(c.tables[n], images[n]) && HeadOf(c.tables[n], images[n])
    ensures Orderly(n, Start(base, n), c.log + []) && Fold(n, Start(base, n), c.log) == Some(c.tables[n].view)
  {
    hide Fold, Eff, CkOk, LogFits, T.SizesOk;
    assert TabInv(env, false, Start(base, n), c.tables[n], n, c.log);
    if n in base {
      assert Durable(base[n]);
    }
    assert c.log + [] == c.log;
  }

  lemma {:induction false} WeakLoads(env: Env, n: Name, s: Option<Store>, t: Tab, img: Image, log: seq<W.Record>)
    requires TabInv(env, false, s, t, n, log) && HeadOf(t, img)
    ensures Loads(n, Some(img), Entries(env, log))
  {
    OpenedKeeps(n, img, Entries(env, log));
    hide RecordFits, Fold, Eff, EffOf, Opened, Orderly, Offset;
    forall i, lsn | 0 <= i < |log|
      ensures !Refuses(n, t.schema, lsn, Entries(env, log)[i])
    {
    }
  }

  /** How many rows a table loses: those of the records before its checkpoint that it is not cut to. */
  lemma {:induction false} RowsLost(env: Env, n: Name, s: Option<Store>, t: Tab, img: Image, log: seq<W.Record>)
    requires TabInv(env, false, s, t, n, log) && CrashOf(t, img)
    ensures var e := Eff(env, n, Ck(t.lsn, t.ckRows), log);
            |t.view.rows| - |LoadTab(env, n, img, Entries(env, log)).view.rows|
            == |RowsIn(Fold(n, s, log[..CutOf(env, log, e.lsn)]))| - CutRows(t, e.rows)
  {
    var e := Eff(env, n, Ck(t.lsn, t.ckRows), log);
    assert log + [] == log && log[..|log|] == log;
    LoadTabIs(env, n, t, img, log, []);
    TornRows(t, img, e.rows);
    ReplayLength(env, n, s, log, e.lsn, Truncated(img, e.rows), |log|);
  }

  /** No record before number `j` gives the table a row. */
  ghost predicate AddsNothing(n: Name, log: seq<W.Record>, j: nat)
    requires j <= |log|
  {
    forall i :: 0 <= i < j && log[i].table == n && (log[i].Insert? || log[i].Update?) ==> log[i].rows == []
  }

  lemma {:induction false} NothingAdded(n: Name, s: Store, log: seq<W.Record>, j: nat)
    requires j <= |log|
    ensures Fold(n, Some(s), log[..j]).Some? && |Fold(n, Some(s), log[..j]).value.rows| >= |s.rows|
    ensures |Fold(n, Some(s), log[..j]).value.rows| == |s.rows| <==> AddsNothing(n, log, j)
  {
    if j > 0 {
      NothingAdded(n, s, log, j - 1);
      assert log[..j] == log[..j - 1] + [log[j - 1]];
      FoldSnoc(n, Some(s), log[..j - 1], log[j - 1]);
    } else {
      assert log[..0] == [];
    }
  }

  ghost predicate NoFlush(n: Name, log: seq<W.Record>) {
    forall i :: 0 <= i < |log| ==> !(log[i].SegmentFlush? && log[i].table == n)
  }

  lemma {:induction false} EffNoFlush(env: Env, n: Name, ck: Ck, log: seq<W.Record>)
    requires NoFlush(n, log)
    ensures Eff(env, n, ck, log) == ck
  {
    hide Offset;
    if log != [] {
      EffNoFlush(env, n, ck, log[..|log| - 1]);
    }
  }

  /**
   * A table with a stored offset from an older log, neither sealed nor checkpointed since: it
   * comes back if and only if no record of the new log below that offset gives it a row.
   */
  lemma {:induction false} StoredOffsetIff(env: Env, n: Name, was: Tab, t: Tab, img: Image, log: seq<W.Record>)
    requires Durable(was) && t == was.(view := t.view) && NoFlush(n, log)
    requires TabInv(env, false, Some(was.view), t, n, log) && CrashOf(t, img)
    ensures LoadTab(env, n, img, Entries(env, log)).view == t.view
       <==> AddsNothing(n, log, CutOf(env, log, was.lsn))
  {
    var ck := Ck(t.lsn, t.ckRows);
    EffNoFlush(env, n, ck, log);
    NothingAdded(n, was.view, log, CutOf(env, log, was.lsn));
    assert log + [] == log;
    assert Fold(n, Some(was.view), log) == Some(t.view) && Orderly(n, Some(was.view), log);
    hide Fold, Orderly, LogFits, Offset, CutOf, LoadTab, CrashOf, AddsNothing, Entries;
    TableIff(env, n, Some(was.view), t, img, log, []);
  }

  function NumberColumn(): seq<W.Column> {
    [W.Column([97], INT32, true, 0, W.NoDefault)]
  }

  function Numbered(k: int): seq<Row> {
    [[Int32(k)]]
  }

  /** A row is inserted, the log deleted by a checkpoint, and another row inserted. */
  function DeletedRun(n: Name): seq<Event> {
    [AddTable(n, NumberColumn()), InsertRows(n, Numbered(1)), Checkpoint(false), InsertRows(n, Numbered(2))]
  }

  lemma {:induction false} NumberFits(k: int)
    ensures T.RowsFit(KindsOf(NumberColumn()), Numbered(k)) && Writable(KindsOf(NumberColumn()), Numbered(k))
  {
    var kind := KindsOf(NumberColumn())[0];
    assert kind == F.Kind(INT32, true, 0);
    assert F.CapacityOf(kind) >= 1;
    hide F.CapacityOf;
    assert F.Accepts(kind, Int32(k));
  }

  /** An insert of one number into a table that is not sealed by it. */
  lemma {:induction false} NumberStep(env: Env, c: Cat, n: Name, k: int)
    requires !c.refused && n in c.tables && c.tables[n].schema == KindsOf(NumberColumn())
    requires var t := c.tables[n]; t.base == 0 && |t.view.rows| + 1 < env.threshold
    ensures var e, t := InsertRows(n, Numbered(k)), c.tables[n];
            && EventOk(c, e) && EventFits(c, e)
            && Step(env, c, e) == Cat(c.tables[n := t.(view := Insert(t.view, Numbered(k)))],
                                      c.log + [W.Insert(n, ColTypes(t.schema), Numbered(k))], true, false)
  {
    NumberFits(k);
    hide T.RowsFit, Writable, KindsOf;
  }

  /** The states of the run. */
  lemma {:induction false} DeletedStates(env: Env, n: Name) returns (c3: Cat, r: W.Record)
    requires env.threshold >= 4
    ensures var es, c0 := DeletedRun(n), Fresh(map[]);
            && Run(env, c0, es) && Fitting(env, c0, es) && After(env, c0, es) == Step(env, c3, es[3])
            && c3 == Cat(c3.tables, [], false, false) && c3.tables.Keys == {n} && r.Insert? && r.table == n
            && (var t := c3.tables[n];
                && t.view == Store(Numbered(1), {}) && t.base == 0 && t.flushed == 1 && t.lsn > 6 && t.ckRows == 1
                && t.schema == KindsOf(NumberColumn())
                && Step(env, c3, es[3]) == Cat(map[n := t.(view := Store(Numbered(1) + Numbered(2), {}))], [r], true, false))
  {
    var es, c0 := DeletedRun(n), Fresh(map[]);
    var schema := KindsOf(NumberColumn());
    var c1 := Step(env, c0, es[0]);
    assert c1 == Cat(map[n := NewTab(schema)], [W.CreateTable(n, NumberColumn())], true, false);
    NumberStep(env, c1, n, 1);
    var c2 := Step(env, c1, es[1]);
    assert c2.tables[n].view.rows == Numbered(1);
    c3 := Step(env, c2, es[2]);
    assert c3.tables == map[n := Checkpointed(c2.tables[n], Offset(env, c2.log))];
    OffsetsRise(env, c2.log, 0, |c2.log|);
    assert c2.log[..0] == [] && c2.log[..|c2.log|] == c2.log;
    assert Offset(env, []) == 6;
    NumberStep(env, c3, n, 2);
    r := W.Insert(n, ColTypes(schema), Numbered(2));
    hide KindsOf, Offset;
    assert Step(env, c3, es[3]).log == [r];
    FourSteps(env, c0, es, c1, c2, c3);
  }

  lemma {:induction false} FourSteps(env: Env, c: Cat, es: seq<Event>, c1: Cat, c2: Cat, c3: Cat)
    requires |es| == 4 && c1 == Step(env, c, es[0]) && c2 == Step(env, c1, es[1]) && c3 == Step(env, c2, es[2])
    requires !c.refused && !c1.refused && !c2.refused && !c3.refused
    requires EventOk(c, es[0]) && EventOk(c1, es[1]) && EventOk(c2, es[2]) && EventOk(c3, es[3])
    requires EventFits(c, es[0]) && EventFits(c1, es[1]) && EventFits(c2, es[2]) && EventFits(c3, es[3])
    ensures Run(env, c, es) && Fitting(env, c, es) && After(env, c, es) == Step(env, c3, es[3])
  {
    hide Step, EventOk, EventFits;
    TwoSteps(env, c2, es[2], es[3]);
    TwoFit(env, c2, es[2], es[3]);
    assert es[1..][1..] == [es[2], es[3]];
    assert es[1..][0] == es[1];
    assert Run(env, c1, es[1..]) && Fitting(env, c1, es[1..]);
    assert After(env, c1, es[1..]) == After(env, c2, [es[2], es[3]]);
  }

  /** The second row is lost: load succeeds and gives back the first row only. */
  lemma {:induction false} DeletedLogLoses(env: Env, n: Name, images: map<Name, Image>)
    requires env.threshold >= 4 && CrashImages(After(env, Fresh(map[]), DeletedRun(n)), images)
    ensures Run(env, Fresh(map[]), DeletedRun(n)) && Fitting(env, Fresh(map[]), DeletedRun(n))
    ensures var c := After(env, Fresh(map[]), DeletedRun(n));
            && n in c.tables && c.tables[n].view.rows == Numbered(1) + Numbered(2)
            && n in images && Loads(n, Get(images, n), Entries(env, c.log))
            && LoadTab(env, n, images[n], Entries(env, c.log)).view.rows == Numbered(1)
  {
    var c3, r := DeletedStates(env, n);
    var c := After(env, Fresh(map[]), DeletedRun(n));
    var t, img := c.tables[n], images[n];
    assert CrashOf(t, img);
    NoneDurable();
    EpochIff(env, map[], DeletedRun(n), images, n);
    hide Run, Fitting, After, Step, Loads, InStep, Epoch, KindsOf;
    assert c.log == [r];
    LoadsFirst(env, n, t, img, r);
  }

  lemma {:induction false} NoneDurable()
    ensures AllDurable(map[])
  {
  }

  lemma {:induction false} LoadsFirst(env: Env, n: Name, t: Tab, img: Image, r: W.Record)
    requires CrashOf(t, img) && r.Insert? && t.lsn > 6 && t.base == 0 && t.flushed == 1 && t.ckRows == 1
    requires |t.view.rows| == 2 && T.SizesOk(|t.schema|, t.view.rows)
    ensures LoadTab(env, n, img, Entries(env, [r])).view.rows == t.view.rows[..1]
  {
    var ck := Ck(t.lsn, t.ckRows);
    assert NoFlush(n, [r]);
    EffNoFlush(env, n, ck, [r]);
    assert [r] + [] == [r];
    LoadTabIs(env, n, t, img, [r], []);
    assert [r][..0] == [] && OffOf(env, [r], 0) == 6;
    CutOfMeans(env, [r], t.lsn, 0);
    hide LoadTab, Replayed, Entries, CutOf, Eff, Offset;
    ReplaySkips(env, n, [r], t.lsn, Truncated(img, 1), 1);
    TornRows(t, img, 1);
  }
}
