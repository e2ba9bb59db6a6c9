/** The catalog's objects run, the process stops, and the catalog is loaded again from its files. */
module CatalogCrash {
  import opened Options
  import opened Bytes
  import opened Values
  import opened RowStore
  import opened CatalogLog
  import opened CatalogRun
  import opened CatalogRecovery
  import opened RecoveryExact
  import C = Catalogs
  import W = WalCodec
  import L = WalTail

  /** A run from nothing ends with every table as the fold of its log. */
  lemma {:induction false} TablesAreFolds(env: Env, es: seq<Event>)
    requires var c0 := Cat(map[], [], false, false); Keeping(es) && Run(env, c0, es) && Fitting(env, c0, es)
    ensures var c := After(env, Cat(map[], [], false, false), es);
            && (forall n :: n in c.tables <==> Fold(n, None, c.log).Some?)
            && (forall n :: n in c.tables ==> c.tables[n].view == Fold(n, None, c.log).value)
  {
    StartInv(env, true, map[]);
    RunInv(env, true, map[], Cat(map[], [], false, false), es);
    var c := After(env, Cat(map[], [], false, false), es);
    hide *;
    forall n
      ensures n in c.tables <==> Fold(n, None, c.log).Some?
      ensures n in c.tables ==> c.tables[n].view == Fold(n, None, c.log).value
    {
      TableIsFold(env, c, n);
    }
  }

  lemma {:induction false} TableIsFold(env: Env, c: Cat, n: Name)
    requires Inv(env, true, map[], c)
    ensures n in c.tables <==> Fold(n, None, c.log).Some?
    ensures n in c.tables ==> c.tables[n].view == Fold(n, None, c.log).value
  {
    if n !in c.tables {
      NoRecsFold(n, c.log, env, Ck(0, 0));
    }
  }

  /**
   * A new catalog, any run of statements that fit and checkpoints that keep the log, and a stop
   * that leaves the tables' files as any of `images` allowed by the run: the load succeeds, and
   * gives the tables that the catalog had, each with the rows and tombstones it had.
   */
  method RunAndLoad(env: Env, es: seq<Event>, images: map<Name, Image>) returns (ok: bool, tables: map<Name, Tab>)
    requires var c0 := Cat(map[], [], false, false); Keeping(es) && Run(env, c0, es) && Fitting(env, c0, es)
    requires var c := After(env, Cat(map[], [], false, false), es); CrashImages(c, images) && L.Loggable(c.log)
    ensures ok && Loaded(tables)
    ensures var c := After(env, Cat(map[], [], false, false), es);
            && (forall n :: n in tables <==> n in c.tables)
            && (forall n :: n in tables ==> tables[n].view == c.tables[n].view)
  {
    var cat := new C.Catalog(env);
    ghost var c0 := cat.State();
    cat.DoAll(es);
    ghost var c := After(env, c0, es);
    var file := if cat.wal == null then W.HEADER else cat.wal.file;
    ghost var log;
    assert c.log + [] == c.log;
    TablesAreFolds(env, es);
    ok, tables, log := Recover(env, map[], es, [], Offset(env, c.log), images, file);
  }
}
