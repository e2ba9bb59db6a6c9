/** Recovery is exact: after any run and any crash, `load` gives the fold of the logged records. */
module RecoveryExact {
  import opened Options
  import opened Bytes
  import opened Values
  import opened RowStore
  import opened CatalogLog
  import opened CatalogRun
  import opened CatalogRecovery
  import T = Tables
  import W = WalCodec
  import L = WalTail

  // ---- the log as it is read back ----

  /** The records with their offsets. */
  ghost function Entries(env: Env, log: seq<W.Record>): (rs: Records)
    ensures |rs| == |log| && forall i :: 0 <= i < |log| ==> rs[i] == (OffOf(env, log, i), log[i])
  {
    seq(|log|, i requires 0 <= i < |log| => (OffOf(env, log, i), log[i]))
  }

  lemma {:induction false} EntriesPrefix(env: Env, log: seq<W.Record>, k: nat)
    requires k <= |log|
    ensures Entries(env, log)[..k] == Entries(env, log[..k])
  {
    hide Offset;
    forall i | 0 <= i < k
      ensures Entries(env, log)[i] == Entries(env, log[..k])[i]
    {
      assert log[..k][..i] == log[..i];
    }
  }

  lemma {:induction false} EffEntries(env: Env, n: Name, ck: Ck, log: seq<W.Record>)
    ensures EffOf(n, ck, Entries(env, log)) == Eff(env, n, ck, log)
  {
    hide Offset;
    if log != [] {
      var k := |log| - 1;
      EffEntries(env, n, ck, log[..k]);
      EntriesPrefix(env, log, k);
    }
  }

  // ---- tables that exist and tables that are created ----

  lemma {:induction false} OpenedKeeps(n: Name, img: Image, rs: Records)
    ensures Opened(n, Some(img), rs) == Some(img)
  {
    if rs != [] {
      OpenedKeeps(n, img, rs[..|rs| - 1]);
    }
  }

  /** Load creates a table just when the log does. */
  lemma {:induction false} OpenedCreates(env: Env, n: Name, log: seq<W.Record>)
    requires Orderly(n, None, log)
    ensures Opened(n, None, Entries(env, log)).Some? <==> Fold(n, None, log).Some?
  {
    hide Offset, EmptyImage;
    if log != [] {
      var k := |log| - 1;
      EntriesPrefix(env, log, k);
      OrderlyPrefix(n, None, log, k);
      OpenedCreates(env, n, log[..k]);
      assert OrderlyAt(n, None, log, k);
    }
  }

  lemma {:induction false} OrderlyPrefix(n: Name, s: Option<Store>, log: seq<W.Record>, k: nat)
    requires Orderly(n, s, log) && k <= |log|
    ensures Orderly(n, s, log[..k])
  {
    hide Fold;
    forall i | 0 <= i < k
      ensures OrderlyAt(n, s, log[..k], i)
    {
      assert OrderlyAt(n, s, log, i);
      assert log[..k][..i] == log[..i];
    }
  }

  // ---- truncation ----

  /** Where the replay starts: at the checkpoint, or at the end of the sealed rows if that is later. */
  function CutRows(t: Tab, target: nat): nat {
    if target > t.base then target else t.base
  }

  /** Cutting the torn columns at the checkpoint gives back the rows before it, and the sealed rows. */
  lemma {:induction false} TornRows(t: Tab, img: Image, target: nat)
    requires CrashOf(t, img) && target <= t.base + t.flushed && T.SizesOk(|t.schema|, t.view.rows)
    requires t.base + t.flushed <= |t.view.rows|
    ensures Truncated(img, target).view == Store(t.view.rows[..CutRows(t, target)], t.view.dead)
    ensures Truncated(img, target).base == t.base
  {
    var m := CutRows(t, target) - t.base;
    var got := T.RowsOf(img.torn, m);
    forall i | 0 <= i < m
      ensures got[i] == t.view.rows[t.base + i]
    {
      TornRow(t, img, i);
    }
    assert t.view.rows[..t.base + m] == t.view.rows[..t.base] + t.view.rows[t.base..t.base + m];
    assert got == t.view.rows[t.base..t.base + m];
  }

  lemma {:induction false} TornRow(t: Tab, img: Image, i: nat)
    requires CrashOf(t, img) && i < t.flushed && T.SizesOk(|t.schema|, t.view.rows)
    requires t.base + t.flushed <= |t.view.rows|
    ensures T.RowAt(img.torn, i) == t.view.rows[t.base + i]
  {
    var row := t.view.rows[t.base + i];
    forall c | 0 <= c < |t.schema|
      ensures T.RowAt(img.torn, i)[c] == row[c]
    {
      assert TornColumn(t, img.torn[c], c);
    }
  }

  // ---- replay ----

  /** Part-way through the replay: the rows are right, the tombstones lie between then and the end. */
  ghost predicate Midway(n: Name, s: Option<Store>, log: seq<W.Record>, k: nat, t: Tab)
    requires k <= |log|
  {
    && t.view.rows == RowsIn(Fold(n, s, log[..k]))
    && DeadOf(Fold(n, s, log[..k])) <= t.view.dead <= DeadOf(Fold(n, s, log))
  }

  lemma {:induction false} SeenKeeps(v: Store, d: set<nat>, f: set<nat>)
    requires d <= v.dead <= f && forall id :: id in d ==> id < |v.rows|
    ensures d <= Seen(v).dead <= f
  {
  }

  lemma {:induction false} ReplayInsert(env: Env, t: Tab, s: Store, rows: seq<Row>, f: set<nat>)
    requires t.view.rows == s.rows && Tidy(s) && s.dead <= t.view.dead <= f
    ensures var t' := TabInsert(env, t, rows);
            t'.view.rows == s.rows + rows && s.dead <= t'.view.dead <= f
  {
    OpsTidy(s, [], rows);
    SeenKeeps(Insert(t.view, rows), s.dead, f);
  }

  lemma {:induction false} ReplayDelete(t: Tab, s: Store, ids: seq<nat>, f: set<nat>)
    requires t.view.rows == s.rows && s.dead <= t.view.dead <= f && Delete(s, ids).dead <= f
    ensures var t' := TabDelete(t, ids);
            t'.view.rows == s.rows && Delete(s, ids).dead <= t'.view.dead <= f
  {
  }

  /** Replaying the next record stays midway. */
  lemma {:induction false} ReplayStep(env: Env, n: Name, s: Option<Store>, log: seq<W.Record>, k: nat, t: Tab, lsn: nat, off: nat)
    requires k < |log| && TidyOpt(s) && Orderly(n, s, log) && Midway(n, s, log, k, t) && off >= lsn
    ensures Midway(n, s, log, k + 1, Replay1(env, n, lsn, t, (off, log[k])))
  {
    var now, r := Fold(n, s, log[..k]), log[k];
    FoldGrows(n, s, log[..k], k);
    FoldGrows(n, s, log, k + 1);
    FoldSnoc(n, s, log[..k], r);
    assert log[..k + 1] == log[..k] + [r];
    assert OrderlyAt(n, s, log, k);
    var f := DeadOf(Fold(n, s, log));
    hide Fold, TabInsert, TabDelete, Seen;
    if r.table == n && now.Some? {
      match r
      case Insert(_, _, rows) => ReplayInsert(env, t, now.value, rows, f);
      case Delete(_, ids) => ReplayDelete(t, now.value, ids, f);
      case Update(_, ids, _, rows) =>
        OpsTidy(now.value, ids, []);
        ReplayDelete(t, now.value, ids, f);
        ReplayInsert(env, TabDelete(t, ids), Delete(now.value, ids), rows, f);
      case _ =>
    }
  }

  /** Records before the checkpoint are passed over. */
  lemma {:induction false} ReplaySkips(env: Env, n: Name, log: seq<W.Record>, lsn: nat, t: Tab, k: nat)
    requires k <= CutOf(env, log, lsn)
    ensures Replayed(env, n, lsn, t, Entries(env, log)[..k]) == t
  {
    hide Offset, TabInsert, TabDelete, CutOf;
    var rs := Entries(env, log);
    if k > 0 {
      ReplaySkips(env, n, log, lsn, t, k - 1);
      assert rs[..k][..k - 1] == rs[..k - 1] && rs[..k][k - 1] == (OffOf(env, log, k - 1), log[k - 1]);
      CutOfMeans(env, log, lsn, k - 1);
    }
  }

  /** One record further. */
  lemma {:induction false} ReplayNext(env: Env, n: Name, log: seq<W.Record>, lsn: nat, t: Tab, k: nat)
    requires CutOf(env, log, lsn) <= k < |log|
    ensures OffOf(env, log, k) >= lsn
    ensures Replayed(env, n, lsn, t, Entries(env, log)[..k + 1])
         == Replay1(env, n, lsn, Replayed(env, n, lsn, t, Entries(env, log)[..k]), (OffOf(env, log, k), log[k]))
  {
    hide Offset, TabInsert, TabDelete, CutOf;
    var rs := Entries(env, log);
    assert rs[..k + 1][..k] == rs[..k] && rs[..k + 1][k] == (OffOf(env, log, k), log[k]);
    CutOfMeans(env, log, lsn, k);
  }

  /** The others are replayed, each once. */
  lemma {:induction false} ReplayAll(env: Env, n: Name, s: Option<Store>, log: seq<W.Record>, lsn: nat, t: Tab, k: nat)
    requires TidyOpt(s) && Orderly(n, s, log) && CutOf(env, log, lsn) <= k <= |log|
    requires Midway(n, s, log, CutOf(env, log, lsn), t)
    ensures Midway(n, s, log, k, Replayed(env, n, lsn, t, Entries(env, log)[..k]))
  {
    hide Midway, Orderly, Fold, Offset, TabInsert, TabDelete, CutOf, Replayed;
    if k > CutOf(env, log, lsn) {
      ReplayAll(env, n, s, log, lsn, t, k - 1);
      ReplayNext(env, n, log, lsn, t, k - 1);
      var before := Replayed(env, n, lsn, t, Entries(env, log)[..k - 1]);
      ReplayStep(env, n, s, log, k - 1, before, lsn, OffOf(env, log, k - 1));
    } else {
      ReplaySkips(env, n, log, lsn, t, k);
    }
  }

  /** Wherever the replay starts, it adds as many rows as the records hold. */
  lemma {:induction false} ReplayLength(env: Env, n: Name, s: Option<Store>, log: seq<W.Record>, lsn: nat, t: Tab, k: nat)
    requires Orderly(n, s, log) && CutOf(env, log, lsn) <= k <= |log|
    ensures |Replayed(env, n, lsn, t, Entries(env, log)[..k]).view.rows| + |RowsIn(Fold(n, s, log[..CutOf(env, log, lsn)]))|
         == |t.view.rows| + |RowsIn(Fold(n, s, log[..k]))|
  {
    hide Orderly, Fold, Offset, CutOf, Replayed;
    if k > CutOf(env, log, lsn) {
      ReplayLength(env, n, s, log, lsn, t, k - 1);
      ReplayNext(env, n, log, lsn, t, k - 1);
      var before := Replayed(env, n, lsn, t, Entries(env, log)[..k - 1]);
      LengthStep(env, n, s, log, k - 1, before, lsn, OffOf(env, log, k - 1));
    } else {
      ReplaySkips(env, n, log, lsn, t, k);
    }
  }

  lemma {:induction false} LengthStep(env: Env, n: Name, s: Option<Store>, log: seq<W.Record>, k: nat, t: Tab, lsn: nat, off: nat)
    requires k < |log| && Orderly(n, s, log) && off >= lsn
    ensures |Replay1(env, n, lsn, t, (off, log[k])).view.rows| - |t.view.rows|
         == |RowsIn(Fold(n, s, log[..k + 1]))| - |RowsIn(Fold(n, s, log[..k]))|
  {
    assert log[..k + 1] == log[..k] + [log[k]];
    FoldSnoc(n, s, log[..k], log[k]);
    assert OrderlyAt(n, s, log, k);
    hide Fold;
  }

  lemma {:induction false} EndOfReplay(n: Name, s: Option<Store>, log: seq<W.Record>, t: Tab)
    requires TidyOpt(s) && Midway(n, s, log, |log|, t)
    ensures t.view.rows == RowsIn(Fold(n, s, log)) && t.view.dead == DeadOf(Fold(n, s, log))
  {
    assert log[..|log|] == log;
  }

  /** The records before the checkpoint made the rows that the table is cut to. */
  ghost predicate InStep(env: Env, n: Name, s: Option<Store>, t: Tab, log: seq<W.Record>, full: seq<W.Record>) {
    var e := Eff(env, n, Ck(t.lsn, t.ckRows), log);
    |RowsIn(Fold(n, s, full[..CutOf(env, full, e.lsn)]))| == CutRows(t, e.rows)
  }

  /** What is left of the log for a table, as load sees it. */
  lemma {:induction false} LoadTabIs(env: Env, n: Name, t: Tab, img: Image, log: seq<W.Record>, more: seq<W.Record>)
    requires CrashOf(t, img) && forall i :: 0 <= i < |more| ==> !more[i].SegmentFlush?
    ensures var full, e := log + more, Eff(env, n, Ck(t.lsn, t.ckRows), log);
            EffOf(n, Ck(img.lsn, img.ckRows), Entries(env, full)) == e
            && LoadTab(env, n, img, Entries(env, full)).view
               == Replayed(env, n, e.lsn, Truncated(img, e.rows), Entries(env, full)[..|full|]).view
  {
    var full, ck := log + more, Ck(t.lsn, t.ckRows);
    EffMore(env, n, ck, log, more);
    EffEntries(env, n, ck, full);
    assert Entries(env, full)[..|full|] == Entries(env, full);
    hide Eff, Replayed, Truncated, Entries;
  }

  /**
   * A table that exists at the crash comes back as the fold of its records if and only if the
   * records before its checkpoint made just the rows that it is cut to.
   */
  lemma {:induction false} TableIff(env: Env, n: Name, s: Option<Store>, t: Tab, img: Image, log: seq<W.Record>, more: seq<W.Record>)
    requires TidyOpt(s) && TabInv(env, false, s, t, n, log) && CrashOf(t, img)
    requires Orderly(n, s, log + more) && forall i :: 0 <= i < |more| ==> !more[i].SegmentFlush?
    requires CutOf(env, log + more, Eff(env, n, Ck(t.lsn, t.ckRows), log).lsn) <= |log|
    ensures Fold(n, s, log + more) == Some(LoadTab(env, n, img, Entries(env, log + more)).view)
       <==> InStep(env, n, s, t, log, log + more)
  {
    var full, e := log + more, Eff(env, n, Ck(t.lsn, t.ckRows), log);
    var j := CutOf(env, full, e.lsn);
    LoadTabIs(env, n, t, img, log, more);
    FoldSome(n, s, log, more);
    TornRows(t, img, e.rows);
    var t0 := Truncated(img, e.rows);
    assert full[..|full|] == full;
    var end := Replayed(env, n, e.lsn, t0, Entries(env, full)[..|full|]);
    assert |t0.view.rows| == CutRows(t, e.rows);
    ReplayLength(env, n, s, full, e.lsn, t0, |full|);
    if InStep(env, n, s, t, log, full) {
      MidwayAtCut(env, n, s, t, img, log, more, e, j);
      hide *;
      ReplayAll(env, n, s, full, e.lsn, t0, |full|);
      EndOfReplay(n, s, full, end);
      StoreParts(Fold(n, s, full), end.view);
    }
  }

  lemma {:induction false} StoreParts(f: Option<Store>, v: Store)
    requires f.Some? && v.rows == RowsIn(f) && v.dead == DeadOf(f)
    ensures f == Some(v)
  {
  }

  /** The truncated table is where the replay has to start. */
  lemma {:induction false} MidwayAtCut(env: Env, n: Name, s: Option<Store>, t: Tab, img: Image, log: seq<W.Record>, more: seq<W.Record>,
                                       e: Ck, j: nat)
    requires TidyOpt(s) && TabInv(env, false, s, t, n, log) && CrashOf(t, img)
    requires e.rows <= t.base + t.flushed && j <= |log|
    requires |RowsIn(Fold(n, s, (log + more)[..j]))| == CutRows(t, e.rows)
    ensures Midway(n, s, log + more, j, Truncated(img, e.rows))
  {
    var full := log + more;
    FoldGrows(n, s, full, j);
    FoldGrows(n, s, full, |log|);
    assert full[..|log|] == log && log[..j] == full[..j];
    FoldGrows(n, s, log, j);
    hide Fold, Eff, Orderly, CrashOf, Truncated, Offset, LogFits;
    TornRows(t, img, e.rows);
    PrefixRows(t.view.rows, RowsIn(Fold(n, s, full[..j])), CutRows(t, e.rows));
  }

  lemma {:induction false} PrefixRows(a: seq<Row>, b: seq<Row>, n: nat)
    requires b <= a && |b| == n
    ensures a[..n] == b
  {
  }

  lemma {:induction false} EffMore(env: Env, n: Name, ck: Ck, log: seq<W.Record>, more: seq<W.Record>)
    requires forall i :: 0 <= i < |more| ==> !more[i].SegmentFlush?
    ensures Eff(env, n, ck, log + more) == Eff(env, n, ck, log)
  {
    hide Offset;
    if more == [] {
      assert log + more == log;
    } else {
      var k := |more| - 1;
      EffMore(env, n, ck, log, more[..k]);
      assert (log + more)[..|log| + k] == log + more[..k];
    }
  }

  /** In a run since a load, a table comes back. */
  lemma {:induction false} StrictInStep(env: Env, n: Name, s: Option<Store>, t: Tab, log: seq<W.Record>, more: seq<W.Record>)
    requires TabInv(env, true, s, t, n, log)
    ensures CutOf(env, log + more, Eff(env, n, Ck(t.lsn, t.ckRows), log).lsn) <= |log|
    ensures InStep(env, n, s, t, log, log + more)
    ensures Eff(env, n, Ck(t.lsn, t.ckRows), log).lsn <= Offset(env, log)
  {
    var e := Eff(env, n, Ck(t.lsn, t.ckRows), log);
    hide Fold, Orderly, LogFits, Offset, Tidy, T.SizesOk, CutOf;
    var j: nat :| CkAt(env, s, log, n, e, j);
    CutIs(env, log, more, e.lsn, j);
    assert (log + more)[..j] == log[..j];
    OffsetsRise(env, log, j, |log|);
    assert log[..|log|] == log;
  }

  lemma {:induction false} CutIs(env: Env, log: seq<W.Record>, more: seq<W.Record>, lsn: nat, j: nat)
    requires CutAt(env, log, lsn, j)
    ensures CutOf(env, log + more, lsn) == j
  {
    hide Offset, CutOf;
    var full := log + more;
    var c := CutOf(env, full, lsn);
    assert full[..j] == log[..j];
    if j > 0 {
      CutOfMeans(env, full, lsn, j - 1);
      assert full[..j - 1] == log[..j - 1];
    }
    if j < |full| {
      CutOfMeans(env, full, lsn, j);
    }
  }

  lemma {:induction false} FoldSome(n: Name, s: Option<Store>, log: seq<W.Record>, more: seq<W.Record>)
    requires Fold(n, s, log).Some?
    ensures Fold(n, s, log + more).Some?
  {
    if more == [] {
      assert log + more == log;
    } else {
      var k := |more| - 1;
      FoldSome(n, s, log, more[..k]);
      assert (log + more)[..|log| + k] == log + more[..k];
    }
  }

  // ---- tables that the crash found not yet created ----

  lemma {:induction false} AbsentTable(env: Env, n: Name, log: seq<W.Record>, more: seq<W.Record>)
    requires NoRecs(n, log) && |more| <= 1 && (more != [] && more[0].table == n ==> more[0].CreateTable?)
    ensures var full := log + more;
            var got, want := LoadOne(env, n, None, Entries(env, full)), Fold(n, None, full);
            && (got.Some? <==> want.Some?) && (got.Some? ==> got.value.view == want.value)
  {
    var full := log + more;
    var ck := Ck(0, 0);
    NoRecsFold(n, log, env, ck);
    AbsentOrderly(n, log, more);
    OpenedCreates(env, n, full);
    if Fold(n, None, full).Some? {
      CreatedLast(env, n, log, more);
    }
  }

  lemma {:induction false} AbsentOrderly(n: Name, log: seq<W.Record>, more: seq<W.Record>)
    requires Orderly(n, None, log) && |more| <= 1 && (more != [] && more[0].table == n ==> more[0].CreateTable?)
    ensures Orderly(n, None, log + more)
  {
    if more != [] {
      assert more == [more[0]];
      OrderlySnoc(n, None, log, more[0]);
    } else {
      assert log + more == log;
    }
  }

  lemma {:induction false} CreatedLast(env: Env, n: Name, log: seq<W.Record>, more: seq<W.Record>)
    requires NoRecs(n, log) && Fold(n, None, log) == None && |more| <= 1
    requires more != [] && more[0].table == n ==> more[0].CreateTable?
    requires Fold(n, None, log + more).Some? && Opened(n, None, Entries(env, log + more)).Some?
    ensures LoadOne(env, n, None, Entries(env, log + more)).value.view == Store([], {}) == Fold(n, None, log + more).value
  {
    hide Fold, Truncated, LoadTab, Opened, Offset;
    var full, rs := log + more, Entries(env, log + more);
    assert more == [] ==> full == log;
    assert more == [more[0]];
    FoldSnoc(n, None, log, more[0]);
    var img := Opened(n, None, rs).value;
    forall i | 0 <= i < |rs| && rs[i].1.table == n
      ensures rs[i].1.CreateTable?
    {
      assert rs[i].1 == full[i];
    }
    OpenedEmpty(n, rs);
    CreateOnly(env, n, rs, 0, Ck(0, 0), Truncated(img, 0));
    EmptyLoad(env, n, img, rs);
  }

  lemma {:induction false} EmptyLoad(env: Env, n: Name, img: Image, rs: Records)
    requires img.sealed == [] && img.dead == {} && img.lsn == 0 && img.ckRows == 0
    requires EffOf(n, Ck(0, 0), rs) == Ck(0, 0)
    requires Replayed(env, n, 0, Truncated(img, 0), rs) == Truncated(img, 0)
    ensures LoadTab(env, n, img, rs).view == Store([], {})
  {
    hide EffOf, Replayed;
    assert T.RowsOf(img.torn, 0) == [];
  }

  lemma {:induction false} OpenedEmpty(n: Name, rs: Records)
    requires Opened(n, None, rs).Some?
    ensures var img := Opened(n, None, rs).value;
            img.sealed == [] && img.dead == {} && img.lsn == 0 && img.ckRows == 0
  {
    if Opened(n, None, rs[..|rs| - 1]).Some? {
      OpenedEmpty(n, rs[..|rs| - 1]);
    }
  }

  /** A log that only creates the table leaves it as it was created. */
  lemma {:induction false} CreateOnly(env: Env, n: Name, rs: Records, lsn: nat, ck: Ck, t: Tab)
    requires forall i :: 0 <= i < |rs| ==> rs[i].1.table == n ==> rs[i].1.CreateTable?
    ensures EffOf(n, ck, rs) == ck && Replayed(env, n, lsn, t, rs) == t
  {
    if rs != [] {
      CreateOnly(env, n, rs[..|rs| - 1], lsn, ck, t);
    }
  }

  // ---- the theorem ----

  ghost predicate CrashImages(c: Cat, images: map<Name, Image>) {
    images.Keys == c.tables.Keys && forall n :: n in images ==> CrashOf(c.tables[n], images[n])
  }

  /** Nothing, or the record of an operation that had been logged and not yet applied. */
  ghost predicate Pending(c: Cat, more: seq<W.Record>) {
    && |more| <= 1
    && (more != [] ==> more[0].CreateTable? || (more[0].table in c.tables && !more[0].SegmentFlush?))
    && (more != [] && more[0].table in c.tables ==> RowsSized(|c.tables[more[0].table].schema|, more[0]))
  }

  /** The rows of a record have the width of the table. */
  ghost predicate RowsSized(width: nat, r: W.Record) {
    && (r.Insert? ==> T.SizesOk(width, r.rows))
    && (r.Update? ==> T.SizesOk(width, r.rows))
  }

  /** What load gives for a table is what the log says. */
  ghost predicate Exact(env: Env, start: map<Name, Tab>, images: map<Name, Image>, log: seq<W.Record>, n: Name) {
    var got, want := LoadOne(env, n, Get(images, n), Entries(env, log)), Fold(n, Start(start, n), log);
    (got.Some? <==> want.Some?) && (got.Some? ==> got.value.view == want.value)
  }

  lemma {:induction false} RecoveryIsExact(env: Env, start: map<Name, Tab>, c: Cat, images: map<Name, Image>, more: seq<W.Record>, n: Name)
    requires Loaded(start) && Inv(env, true, start, c) && CrashImages(c, images) && Pending(c, more)
    ensures Exact(env, start, images, c.log + more, n)
  {
    hide *;
    var s := Start(start, n);
    if n in c.tables {
      TableFacts(env, start, c, images, more, n);
      TableBack(env, n, s, c.tables[n], images[n], c.log, more);
      ExactExisting(env, start, images, c.log + more, n);
    } else {
      AbsentFacts(env, start, c, images, more, n);
      AbsentTable(env, n, c.log, more);
      ExactAbsent(env, start, images, c.log + more, n);
    }
  }

  lemma {:induction false} TableFacts(env: Env, start: map<Name, Tab>, c: Cat, images: map<Name, Image>, more: seq<W.Record>, n: Name)
    requires Loaded(start) && Inv(env, true, start, c) && CrashImages(c, images) && Pending(c, more) && n in c.tables
    ensures TidyOpt(Start(start, n)) && TabInv(env, true, Start(start, n), c.tables[n], n, c.log)
    ensures n in images && CrashOf(c.tables[n], images[n])
    ensures |more| <= 1 && (more != [] ==> !more[0].SegmentFlush?)
  {
    hide TabInv, CrashOf;
    StartTidy(start, n);
  }

  lemma {:induction false} AbsentFacts(env: Env, start: map<Name, Tab>, c: Cat, images: map<Name, Image>, more: seq<W.Record>, n: Name)
    requires Inv(env, true, start, c) && CrashImages(c, images) && Pending(c, more) && n !in c.tables
    ensures NoRecs(n, c.log) && n !in start && n !in images
    ensures |more| <= 1 && (more != [] && more[0].table == n ==> more[0].CreateTable?)
  {
    hide TabInv, CrashOf, NoRecs;
  }

  lemma {:induction false} ExactExisting(env: Env, start: map<Name, Tab>, images: map<Name, Image>, log: seq<W.Record>, n: Name)
    requires n in images && Fold(n, Start(start, n), log) == Some(LoadTab(env, n, images[n], Entries(env, log)).view)
    ensures Exact(env, start, images, log, n)
  {
    hide LoadTab, Fold, Entries;
    OpenedKeeps(n, images[n], Entries(env, log));
  }

  lemma {:induction false} ExactAbsent(env: Env, start: map<Name, Tab>, images: map<Name, Image>, log: seq<W.Record>, n: Name)
    requires n !in images && n !in start
    requires var got, want := LoadOne(env, n, None, Entries(env, log)), Fold(n, None, log);
             (got.Some? <==> want.Some?) && (got.Some? ==> got.value.view == want.value)
    ensures Exact(env, start, images, log, n)
  {
    hide LoadOne, Fold, Entries;
  }

  lemma {:induction false} StartTidy(start: map<Name, Tab>, n: Name)
    requires Loaded(start)
    ensures TidyOpt(Start(start, n))
  {
    if n in start {
      assert LoadedTab(start[n]);
    }
  }

  lemma {:induction false} TableBack(env: Env, n: Name, s: Option<Store>, t: Tab, img: Image, log: seq<W.Record>, more: seq<W.Record>)
    requires TidyOpt(s) && TabInv(env, true, s, t, n, log) && CrashOf(t, img)
    requires |more| <= 1 && (more != [] ==> !more[0].SegmentFlush?)
    ensures Fold(n, s, log + more) == Some(LoadTab(env, n, img, Entries(env, log + more)).view)
  {
    hide *;
    Weaken(env, s, t, n, log);
    OrderlyMore(n, s, log, more);
    StrictInStep(env, n, s, t, log, more);
    TableIff(env, n, s, t, img, log, more);
  }

  lemma {:induction false} Weaken(env: Env, s: Option<Store>, t: Tab, n: Name, log: seq<W.Record>)
    requires TabInv(env, true, s, t, n, log)
    ensures TabInv(env, false, s, t, n, log)
    ensures Orderly(n, s, log) && Fold(n, s, log).Some?
  {
  }

  lemma {:induction false} OrderlyMore(n: Name, s: Option<Store>, log: seq<W.Record>, more: seq<W.Record>)
    requires Orderly(n, s, log) && Fold(n, s, log).Some? && |more| <= 1
    ensures Orderly(n, s, log + more)
  {
    if more != [] {
      assert more == [more[0]];
      OrderlySnoc(n, s, log, more[0]);
    } else {
      assert log + more == log;
    }
  }

  lemma {:induction false} PlacedAt(hash: W.Hash, rs: seq<W.Record>, at: nat, i: nat)
    requires i < |rs|
    ensures |L.Placed(hash, rs, at)| == |rs|
    ensures L.Placed(hash, rs, at)[i] == (at + |W.EncodeAll(hash, rs[..i])|, rs[i])
  {
    hide W.Encode;
    if i > 0 {
      PlacedAt(hash, rs[1..], at + |W.Encode(hash, rs[0])|, i - 1);
      assert rs[..i][1..] == rs[1..][..i - 1] && rs[..i][0] == rs[0];
    } else {
      PlacedLength(hash, rs, at);
      assert rs[..0] == [];
    }
  }

  lemma {:induction false} PlacedLength(hash: W.Hash, rs: seq<W.Record>, at: nat)
    ensures |L.Placed(hash, rs, at)| == |rs|
  {
    hide W.Encode;
    if rs != [] {
      PlacedLength(hash, rs[1..], at + |W.Encode(hash, rs[0])|);
    }
  }

  lemma {:induction false} PlacedIsEntries(env: Env, log: seq<W.Record>)
    ensures L.Placed(env.hash, log, 6) == Entries(env, log)
  {
    PlacedLength(env.hash, log, 6);
    forall i | 0 <= i < |log|
      ensures L.Placed(env.hash, log, 6)[i] == Entries(env, log)[i]
    {
      PlacedAt(env.hash, log, 6, i);
    }
  }

  /** A cut that spares the log of the run keeps all of it. */
  lemma {:induction false} WholeAtLeast(hash: W.Hash, log: seq<W.Record>, more: seq<W.Record>, at: nat, cut: nat)
    requires at + |W.EncodeAll(hash, log)| <= cut
    ensures L.Whole(hash, log + more, at, cut) >= |log|
  {
    hide W.Encode;
    if log != [] {
      assert (log + more)[0] == log[0] && (log + more)[1..] == log[1..] + more;
      WholeAtLeast(hash, log[1..], more, at + |W.Encode(hash, log[0])|, cut);
    }
  }

  /** The table of the record that was logged last takes its rows. */
  ghost predicate MoreFits(c: Cat, more: seq<W.Record>) {
    more != [] && more[0].table in c.tables ==> RecordFits(c.tables[more[0].table].schema, more[0].table, more[0])
  }

  /** The images are of these tables: their schemas and stored checkpoints. */
  ghost predicate HeadsOf(c: Cat, images: map<Name, Image>) {
    images.Keys == c.tables.Keys && forall n :: n in images ==> HeadOf(c.tables[n], images[n])
  }

  ghost predicate HeadOf(t: Tab, img: Image) {
    img.schema == t.schema && img.lsn == t.lsn && img.ckRows == t.ckRows
  }

  lemma {:induction false} CrashHeads(c: Cat, images: map<Name, Image>)
    requires CrashImages(c, images)
    ensures HeadsOf(c, images)
  {
  }

  /** Load gets through the log of a table exactly if the table takes the rows logged last. */
  lemma {:induction false} TableLoads(env: Env, n: Name, s: Option<Store>, t: Tab, img: Image, log: seq<W.Record>, more: seq<W.Record>)
    requires TabInv(env, true, s, t, n, log) && HeadOf(t, img) && |more| <= 1 && (more != [] ==> !more[0].SegmentFlush?)
    ensures Loads(n, Some(img), Entries(env, log + more)) <==> (more != [] ==> RecordFits(t.schema, n, more[0]))
  {
    hide *;
    var full, ck := log + more, Ck(t.lsn, t.ckRows);
    var rs, e := Entries(env, full), Eff(env, n, ck, log);
    OpenedKeeps(n, img, rs);
    EffMore(env, n, ck, log, more);
    EffEntries(env, n, ck, full);
    StrictInStep(env, n, s, t, log, more);
    FitsAll(env, s, t, n, log);
    HeadIs(t, img);
    RefusesLast(env, n, t.schema, e.lsn, log, more);
    LoadsMeans(n, img, rs, e.lsn);
  }

  lemma {:induction false} HeadIs(t: Tab, img: Image)
    requires HeadOf(t, img)
    ensures img.schema == t.schema && Ck(img.lsn, img.ckRows) == Ck(t.lsn, t.ckRows)
  {
  }

  lemma {:induction false} FitsAll(env: Env, s: Option<Store>, t: Tab, n: Name, log: seq<W.Record>)
    requires TabInv(env, true, s, t, n, log)
    ensures LogFits(t.schema, n, log)
  {
  }

  /** No replayed record is refused. */
  ghost predicate NoneRefused(n: Name, schema: Schema, lsn: nat, rs: Records) {
    forall i :: 0 <= i < |rs| ==> !Refuses(n, schema, lsn, rs[i])
  }

  lemma {:induction false} LoadsMeans(n: Name, img: Image, rs: Records, lsn: nat)
    requires Opened(n, Some(img), rs) == Some(img) && lsn == EffOf(n, Ck(img.lsn, img.ckRows), rs).lsn
    ensures Loads(n, Some(img), rs) <==> NoneRefused(n, img.schema, lsn, rs)
  {
    hide Refuses, EffOf, Opened;
  }

  lemma {:induction false} RefusesLast(env: Env, n: Name, schema: Schema, lsn: nat, log: seq<W.Record>, more: seq<W.Record>)
    requires LogFits(schema, n, log) && |more| <= 1 && lsn <= Offset(env, log)
    ensures NoneRefused(n, schema, lsn, Entries(env, log + more)) <==> (more != [] ==> RecordFits(schema, n, more[0]))
  {
    hide RecordFits, Offset;
    var full, rs := log + more, Entries(env, log + more);
    forall i | 0 <= i < |log|
      ensures !Refuses(n, schema, lsn, rs[i])
    {
      assert rs[i].1 == full[i] == log[i];
    }
    if more != [] {
      assert full[..|log|] == log;
      assert rs[|log|] == (Offset(env, log), more[0]);
    }
  }

  /** The log that has only created a table, or not even that, is got through. */
  lemma {:induction false} AbsentLoads(env: Env, n: Name, log: seq<W.Record>, more: seq<W.Record>)
    requires NoRecs(n, log) && |more| <= 1 && (more != [] && more[0].table == n ==> more[0].CreateTable?)
    ensures Loads(n, None, Entries(env, log + more))
  {
    var full, rs := log + more, Entries(env, log + more);
    hide Opened, EffOf, Offset;
    forall i, schema, lsn | 0 <= i < |rs|
      ensures !Refuses(n, schema, lsn, rs[i])
    {
      assert rs[i].1 == full[i];
    }
  }

  /** After a run since a load and the next record, if any: load succeeds exactly if the rows of that record fit. */
  lemma {:induction false} LoadIff(env: Env, start: map<Name, Tab>, c: Cat, images: map<Name, Image>, more: seq<W.Record>)
    requires Inv(env, true, start, c) && HeadsOf(c, images) && Pending(c, more)
    ensures (forall n :: Loads(n, Get(images, n), Entries(env, c.log + more))) <==> MoreFits(c, more)
  {
    hide Loads, TabInv, RecordFits, NoRecs, Entries;
    forall n
      ensures n in c.tables ==> (Loads(n, Get(images, n), Entries(env, c.log + more)) <==>
                (more != [] ==> RecordFits(c.tables[n].schema, n, more[0])))
      ensures n !in c.tables ==> Loads(n, Get(images, n), Entries(env, c.log + more))
    {
      if n in c.tables {
        TableLoads(env, n, Start(start, n), c.tables[n], images[n], c.log, more);
      } else {
        AbsentLoads(env, n, c.log, more);
      }
    }
    if MoreFits(c, more) {
      forall n
        ensures Loads(n, Get(images, n), Entries(env, c.log + more))
      {
        if n in c.tables && more != [] {
          OtherFits(c.tables[n].schema, n, more[0]);
        }
      }
    }
  }

  lemma {:induction false} OtherFits(schema: Schema, n: Name, r: W.Record)
    ensures r.table != n ==> RecordFits(schema, n, r)
    ensures r.CreateTable? ==> RecordFits(schema, n, r)
  {
  }

  /**
   * After any run since a load whose statements fit, and a crash that leaves of the next record
   * any part or all of it: reading the log and loading succeeds exactly if the table takes the
   * rows of that record, when it was complete. It then gives every table as the fold of the
   * records read: all those of the run, and the next one if it was complete.
   */
  method Recover(env: Env, ghost start: map<Name, Tab>, ghost es: seq<Event>, ghost more: seq<W.Record>, ghost cut: nat,
                 images: map<Name, Image>, file: seq<byte>)
    returns (ok: bool, tables: map<Name, Tab>, ghost log: seq<W.Record>)
    requires Loaded(start) && Keeping(es)
    requires var c0 := Cat(start, [], false, false); Run(env, c0, es) && Fitting(env, c0, es)
    requires var c := After(env, Cat(start, [], false, false), es);
             && CrashImages(c, images) && Pending(c, more) && L.Loggable(c.log + more)
             && Offset(env, c.log) <= cut <= Offset(env, c.log + more)
             && file == (W.HEADER + W.EncodeAll(env.hash, c.log + more))[..cut]
    ensures var c := After(env, Cat(start, [], false, false), es);
            && (log == c.log || log == c.log + more)
            && (cut == Offset(env, c.log + more) ==> log == c.log + more)
            && (ok <==> log == c.log || MoreFits(c, more))
    ensures ok ==> forall n :: n in tables <==> Fold(n, Start(start, n), log).Some?
    ensures ok ==> forall n :: n in tables ==> tables[n].view == Fold(n, Start(start, n), log).value
    ensures ok ==> Loaded(tables)
  {
    ghost var c0 := Cat(start, [], false, false);
    ghost var c := After(env, c0, es);
    ghost var full := c.log + more;
    LoadedDurable(start);
    StartInv(env, true, start);
    RunInv(env, true, start, c0, es);
    L.TornTail(env.hash, full, cut);
    WholeAtLeast(env.hash, c.log, more, 6, cut);
    ghost var k := L.Whole(env.hash, full, 6, cut);
    log := full[..k];
    ReadLog(env, c.log, more, cut, k);
    PlacedIsEntries(env, log);
    PendingPart(c, more, log);
    CrashHeads(c, images);
    LastFits(c, more, log);
    hide *;
    var r := W.ReadAll(env.hash, file);
    ok, tables := Load(env, images, r.records);
    LoadIff(env, start, c, images, log[|c.log|..]);
    if ok {
      forall n
        ensures n in tables <==> Fold(n, Start(start, n), log).Some?
        ensures n in tables ==> tables[n].view == Fold(n, Start(start, n), log).value
      {
        RecoveryIsExact(env, start, c, images, log[|c.log|..], n);
        ExactMeans(env, start, images, log, n, tables);
      }
      LastFits(c, more, log);
      LoadedAgain(env, start, c, images, log[|c.log|..], tables);
    }
  }

  lemma {:induction false} LoadedDurable(start: map<Name, Tab>)
    requires Loaded(start)
    ensures AllDurable(start)
  {
    forall n | n in start
      ensures Durable(start[n])
    {
      assert LoadedTab(start[n]);
    }
  }

  lemma {:induction false} LastFits(c: Cat, more: seq<W.Record>, log: seq<W.Record>)
    requires |c.log| <= |log| && (log == c.log || log == c.log + more) && |more| <= 1
    ensures MoreFits(c, log[|c.log|..]) <==> log == c.log || MoreFits(c, more)
  {
    if log == c.log + more {
      assert log[|c.log|..] == more;
    }
  }

  // ---- the next run ----

  lemma {:induction false} ReplayShape(env: Env, n: Name, lsn: nat, t: Tab, rs: Records)
    requires t.base <= |t.view.rows|
    ensures var t' := Replayed(env, n, lsn, t, rs);
            t'.schema == t.schema && t'.base <= |t'.view.rows|
  {
    if rs != [] {
      ReplayShape(env, n, lsn, t, rs[..|rs| - 1]);
    }
  }

  lemma {:induction false} LoadShape(env: Env, n: Name, img: Image, rs: Records)
    ensures var t := LoadTab(env, n, img, rs);
            && t.schema == img.schema && t.base + t.flushed == |t.view.rows|
            && t.lsn == 0 && t.ckRows == |t.view.rows|
  {
    hide Replayed, EffOf, T.RowsOf;
    var e := EffOf(n, Ck(img.lsn, img.ckRows), rs);
    ReplayShape(env, n, e.lsn, Truncated(img, e.rows), rs);
  }

  /** The rows that the log gives a table have its width. */
  lemma {:induction false} FoldSized(env: Env, n: Name, s: Option<Store>, t: Tab, log: seq<W.Record>, more: seq<W.Record>)
    requires TidyOpt(s) && TabInv(env, true, s, t, n, log) && |more| <= 1
    requires more != [] && more[0].table == n ==> RowsSized(|t.schema|, more[0])
    ensures T.SizesOk(|t.schema|, RowsIn(Fold(n, s, log + more))) && TidyOpt(Fold(n, s, log + more))
  {
    if more == [] {
      assert log + more == log;
    } else {
      assert more == [more[0]];
      FoldSnoc(n, s, log, more[0]);
      ApplyTidy(n, Some(t.view), more[0]);
      hide Eff, CkOk, Fold, Orderly;
    }
  }

  lemma {:induction false} BackLoaded(env: Env, n: Name, s: Option<Store>, t: Tab, img: Image, log: seq<W.Record>, more: seq<W.Record>)
    requires TidyOpt(s) && TabInv(env, true, s, t, n, log) && CrashOf(t, img)
    requires |more| <= 1 && (more != [] ==> !more[0].SegmentFlush?)
    requires more != [] && more[0].table == n ==> RowsSized(|t.schema|, more[0])
    ensures LoadedTab(LoadTab(env, n, img, Entries(env, log + more)))
  {
    TableBack(env, n, s, t, img, log, more);
    FoldSized(env, n, s, t, log, more);
    LoadShape(env, n, img, Entries(env, log + more));
    assert img.schema == t.schema;
    hide LoadTab, Fold, Entries, TabInv, CrashOf;
  }

  /** The recovered tables are fit to start the next run from. */
  lemma {:induction false} LoadedAgain(env: Env, start: map<Name, Tab>, c: Cat, images: map<Name, Image>, more: seq<W.Record>,
                                       tables: map<Name, Tab>)
    requires Loaded(start) && Inv(env, true, start, c) && CrashImages(c, images) && Pending(c, more)
    requires forall n :: Get(tables, n) == LoadOne(env, n, Get(images, n), Entries(env, c.log + more))
    ensures Loaded(tables)
  {
    hide LoadTab, Entries, TabInv, CrashOf, Inv, CrashImages, LoadedTab, LoadOne;
    forall n | n in tables
      ensures LoadedTab(tables[n])
    {
      var rs := Entries(env, c.log + more);
      assert Get(tables, n) == LoadOne(env, n, Get(images, n), rs);
      if n in c.tables {
        TableFacts(env, start, c, images, more, n);
        BackLoaded(env, n, Start(start, n), c.tables[n], images[n], c.log, more);
        LoadOneExisting(env, n, images[n], rs);
      } else {
        AbsentFacts(env, start, c, images, more, n);
        AbsentTable(env, n, c.log, more);
        CreatedLoaded(env, n, c.log, more);
      }
    }
  }

  lemma {:induction false} LoadOneExisting(env: Env, n: Name, img: Image, rs: Records)
    ensures LoadOne(env, n, Some(img), rs) == Some(LoadTab(env, n, img, rs))
  {
    OpenedKeeps(n, img, rs);
  }

  lemma {:induction false} CreatedLoaded(env: Env, n: Name, log: seq<W.Record>, more: seq<W.Record>)
    requires NoRecs(n, log) && |more| <= 1 && (more != [] && more[0].table == n ==> more[0].CreateTable?)
    ensures var got := LoadOne(env, n, None, Entries(env, log + more));
            got.Some? ==> LoadedTab(got.value)
  {
    var rs := Entries(env, log + more);
    NoRecsFold(n, log, env, Ck(0, 0));
    AbsentTable(env, n, log, more);
    var got := LoadOne(env, n, None, rs);
    if got.Some? {
      CreatedLast(env, n, log, more);
      LoadShape(env, n, Opened(n, None, rs).value, rs);
    }
  }

  lemma {:induction false} ExactMeans(env: Env, start: map<Name, Tab>, images: map<Name, Image>, log: seq<W.Record>, n: Name,
                                      tables: map<Name, Tab>)
    requires Exact(env, start, images, log, n) && Get(tables, n) == LoadOne(env, n, Get(images, n), Entries(env, log))
    ensures n in tables <==> Fold(n, Start(start, n), log).Some?
    ensures n in tables ==> tables[n].view == Fold(n, Start(start, n), log).value
  {
    hide LoadOne, Fold;
  }

  lemma {:induction false} PendingPart(c: Cat, more: seq<W.Record>, log: seq<W.Record>)
    requires Pending(c, more) && (log == c.log || log == c.log + more)
    ensures |c.log| <= |log| && Pending(c, log[|c.log|..]) && log == c.log + log[|c.log|..]
  {
    if log == c.log + more {
      assert log[|c.log|..] == more;
    }
  }

  lemma {:induction false} ReadLog(env: Env, log: seq<W.Record>, more: seq<W.Record>, cut: nat, k: nat)
    requires |more| <= 1 && |log| <= k <= |log + more| && 6 <= cut
    requires k == L.Whole(env.hash, log + more, 6, cut)
    ensures (log + more)[..k] == log || (log + more)[..k] == log + more
    ensures cut == Offset(env, log + more) ==> (log + more)[..k] == log + more
  {
    var full := log + more;
    L.WholeExact(env.hash, full, 6, cut);
    hide W.EncodeAll, L.Whole;
    assert full[..|full|] == full && full[..|log|] == log;
    if k < |full| {
      assert k == |log| && k + 1 == |full|;
    }
  }
}
