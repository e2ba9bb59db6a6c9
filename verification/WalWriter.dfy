/** The log writer: records are built in a buffer, closed by their checksum and appended to the file. */
module WalWriting {
  import opened Bytes
  import opened Values
  import opened WalCodec
  import opened WalRoundTrip

  lemma {:induction false} EncManyNext<T>(enc: T -> seq<byte>, xs: seq<T>, i: nat)
    requires i < |xs|
    ensures EncMany(enc, xs[..i + 1]) == EncMany(enc, xs[..i]) + enc(xs[i])
  {
    if i == 0 {
      assert xs[..1][1..] == [];
      assert EncMany(enc, xs[..1]) == enc(xs[0]) + EncMany(enc, []);
    } else {
      EncManyNext(enc, xs[1..], i - 1);
      assert xs[..i + 1][1..] == xs[1..][..i] && xs[..i][1..] == xs[1..][..i - 1];
      var a, b, c := enc(xs[0]), EncMany(enc, xs[1..][..i - 1]), enc(xs[i]);
      assert EncMany(enc, xs[..i]) == a + b;
      assert a + (b + c) == a + b + c;
    }
  }

  lemma {:induction false} EncRowNext(row: seq<Value>, i: nat)
    requires i < |row|
    ensures EncRow(row[..i + 1]) == EncRow(row[..i]) + EncValue(row[i])
  {
    hide EncValue;
    if i == 0 {
      assert row[..1][1..] == [];
      assert EncRow(row[..1]) == EncValue(row[0]) + EncRow([]);
    } else {
      EncRowNext(row[1..], i - 1);
      assert row[..i + 1][1..] == row[1..][..i] && row[..i][1..] == row[1..][..i - 1];
      var a, b, c := EncValue(row[0]), EncRow(row[1..][..i - 1]), EncValue(row[i]);
      assert EncRow(row[..i]) == a + b;
      assert a + (b + c) == a + b + c;
    }
  }

  lemma {:induction false} EncodeAllNext(hash: Hash, head: seq<byte>, rs: seq<Record>, r: Record)
    ensures head + EncodeAll(hash, rs + [r]) == head + EncodeAll(hash, rs) + Encode(hash, r)
  {
    EncodeAllConcat(hash, rs, [r]);
    hide Encode;
    assert [r][1..] == [];
    assert EncodeAll(hash, [r]) == Encode(hash, r) + EncodeAll(hash, []);
  }

  lemma {:induction false} EncodeAllConcat(hash: Hash, a: seq<Record>, b: seq<Record>)
    ensures EncodeAll(hash, a + b) == EncodeAll(hash, a) + EncodeAll(hash, b)
  {
    hide Encode;
    if a == [] {
      assert a + b == b;
    } else {
      EncodeAllConcat(hash, a[1..], b);
      assert (a + b)[1..] == a[1..] + b;
      Assoc(Encode(hash, a[0]), EncodeAll(hash, a[1..]), EncodeAll(hash, b));
    }
  }

  /** The head that every record starts with: its type and its table. */
  method Head(tag: byte, table: Name) returns (buf: seq<byte>)
    ensures buf == [tag] + EncName(table)
  {
    buf := [tag];
    buf := buf + PutLe(|table|, 2);
    buf := buf + table;
    assert buf == [tag] + (PutLe(|table|, 2) + table);
  }

  /** Each value has the type of its column: the writer throws at any other. */
  ghost predicate RowTyped(cols: seq<ColType>, row: seq<Value>) {
    |row| == |cols| && forall i :: 0 <= i < |row| ==> row[i] != Null ==> PlainCode(cols[i].code) == TypeOf(row[i])
  }

  ghost predicate RowsTyped(cols: seq<ColType>, rows: seq<seq<Value>>) {
    forall i :: 0 <= i < |rows| ==> RowTyped(cols, rows[i])
  }

  /** The values of one row, each laid out by the type of its column. */
  method PutRow(cols: seq<ColType>, row: seq<Value>) returns (buf: seq<byte>)
    requires RowTyped(cols, row)
    ensures buf == EncRow(row)
  {
    buf := [];
    for c := 0 to |row|
      invariant buf == EncRow(row[..c])
    {
      var v := row[c];
      EncRowNext(row, c);
      if v == Null {
        buf := buf + [1];
      } else {
        var t := cols[c].code;
        var body: seq<byte>;
        if t == INT32 {
          body := PutSigned(v.n, 4);
        } else if t == INT64 {
          body := PutSigned(v.n, 8);
        } else if t == DOUBLE {
          body := PutLe(v.bits, 8);
        } else if t == BOOL {
          body := [if v.b then 1 else 0];
        } else if t == DATE {
          body := PutSigned(v.n, 4);
        } else if t == TIMESTAMP {
          body := PutSigned(v.n, 8);
        } else {
          body := PutLe(|v.s|, 2) + v.s;
        }
        assert body == EncPlain(v);
        buf := buf + ([0] + body);
      }
    }
    assert row[..|row|] == row;
  }

  method PutRows(cols: seq<ColType>, rows: seq<seq<Value>>) returns (buf: seq<byte>)
    requires RowsTyped(cols, rows)
    ensures buf == EncRows(cols, rows)
  {
    hide RowTyped, EncRow;
    var cs: seq<byte> := [];
    for c := 0 to |cols|
      invariant cs == EncMany(EncCol, cols[..c])
    {
      EncManyNext(EncCol, cols, c);
      cs := cs + ([cols[c].code] + PutLe(cols[c].maxLen, 2));
    }
    assert cols[..|cols|] == cols;
    var rs: seq<byte> := [];
    for r := 0 to |rows|
      invariant rs == EncMany(EncRow, rows[..r])
    {
      EncManyNext(EncRow, rows, r);
      var one := PutRow(cols, rows[r]);
      rs := rs + one;
    }
    assert rows[..|rows|] == rows;
    buf := PutLe(|rows|, 4) + PutLe(|cols|, 2) + cs + rs;
  }

  method PutIds(ids: seq<nat>) returns (buf: seq<byte>)
    ensures buf == EncIds(ids)
  {
    var body: seq<byte> := [];
    for i := 0 to |ids|
      invariant body == EncMany(EncId, ids[..i])
    {
      EncManyNext(EncId, ids, i);
      body := body + PutLe(ids[i], 8);
    }
    assert ids[..|ids|] == ids;
    buf := PutLe(|ids|, 8) + body;
  }

  method PutSchema(schema: seq<Column>) returns (buf: seq<byte>)
    ensures buf == PutLe(|schema|, 2) + EncMany(EncColumn, schema)
  {
    hide PutLe, EncName, EncDefault;
    var body: seq<byte> := [];
    for i := 0 to |schema|
      invariant body == EncMany(EncColumn, schema[..i])
    {
      EncManyNext(EncColumn, schema, i);
      var c := schema[i];
      var col := [c.code] + [if c.nullable then 1 else 0] + PutLe(c.maxLen, 2) + EncName(c.name);
      var def := EncDefault(c.def);
      assert col + def == EncColumn(c);
      body := body + (col + def);
    }
    assert schema[..|schema|] == schema;
    buf := PutLe(|schema|, 2) + body;
  }

  datatype FileState = Missing | Present(bytes: seq<byte>)

  /** Records that follow a log are a longer log. */
  lemma {:induction false} LogGoesOn(hash: Hash, head: seq<byte>, before: seq<Record>, log: seq<Record>)
    requires head == HEADER + EncodeAll(hash, before)
    ensures head + EncodeAll(hash, log) == HEADER + EncodeAll(hash, before + log)
  {
    EncodeAllConcat(hash, before, log);
    hide EncodeAll;
    Assoc(HEADER, EncodeAll(hash, before), EncodeAll(hash, log));
  }

  lemma {:induction false} TagFirst(hash: Hash, r: Record)
    ensures |Encode(hash, r)| > 0 && Encode(hash, r)[0] != MAGIC[0]
  {
  }

  /** Records that follow an empty file have no header before them, and are never read. */
  lemma {:induction false} EmptyFileUnread(hash: Hash, log: seq<Record>)
    ensures var file := EncodeAll(hash, log); |file| < 6 || file[..4] != MAGIC
  {
    if log != [] {
      TagFirst(hash, log[0]);
      hide Encode;
      var file := EncodeAll(hash, log);
      assert file[0] == Encode(hash, log[0])[0];
      if |file| >= 6 {
        assert file[..4][0] == file[0];
      }
    }
  }

  class WalWriter {
    const hash: Hash
    var file: seq<byte>
    var offset: nat
    ghost const head: seq<byte>
    ghost var log: seq<Record>

    /** The file is what it was when it was opened, or the header, and the records logged since. */
    ghost predicate Valid()
      reads this
    {
      offset == |file| && file == head + EncodeAll(hash, log)
    }

    /** Opens a log, writing the header if there is no such file; a file that exists is taken as it is. */
    constructor (h: Hash, existing: FileState)
      ensures Valid() && hash == h && log == []
      ensures head == if existing.Missing? then HEADER else existing.bytes
    {
      hash := h;
      file := if existing.Missing? then HEADER else existing.bytes;
      offset := if existing.Missing? then 6 else |existing.bytes|;
      head, log := if existing.Missing? then HEADER else existing.bytes, [];
      new;
      assert EncodeAll(hash, []) == [];
    }

    /** Closes the payload with its checksum and appends it. */
    method WriteRecord(payload: seq<byte>, ghost r: Record)
      requires Valid() && payload == Payload(r)
      modifies this
      ensures Valid() && log == old(log) + [r]
    {
      var buf := payload + PutLe(hash(payload), 8);
      EncodeAllNext(hash, head, log, r);
      file := file + buf;
      offset := offset + |buf|;
      log := log + [r];
    }

    /** An insert of no rows writes nothing. */
    method LogInsert(table: Name, cols: seq<ColType>, rows: seq<seq<Value>>)
      requires Valid() && RowsTyped(cols, rows)
      modifies this
      ensures Valid()
      ensures log == if rows == [] then old(log) else old(log) + [Insert(table, cols, rows)]
    {
      if rows == [] {
        return;
      }
      var buf := Head(TYPE_INSERT, table);
      var body := PutRows(cols, rows);
      WriteRecord(buf + body, Insert(table, cols, rows));
    }

    method LogCreateTable(table: Name, schema: seq<Column>)
      requires Valid()
      modifies this
      ensures Valid() && log == old(log) + [CreateTable(table, schema)]
    {
      var buf := Head(TYPE_CREATE, table);
      var body := PutSchema(schema);
      WriteRecord(buf + body, CreateTable(table, schema));
    }

    method LogDelete(table: Name, ids: seq<nat>)
      requires Valid()
      modifies this
      ensures Valid() && log == old(log) + [Delete(table, ids)]
    {
      var buf := Head(TYPE_DELETE, table);
      var body := PutIds(ids);
      WriteRecord(buf + body, Delete(table, ids));
    }

    method LogUpdate(table: Name, ids: seq<nat>, cols: seq<ColType>, rows: seq<seq<Value>>)
      requires Valid() && RowsTyped(cols, rows)
      modifies this
      ensures Valid() && log == old(log) + [Update(table, ids, cols, rows)]
    {
      var buf := Head(TYPE_UPDATE, table);
      var gone := PutIds(ids);
      var body := PutRows(cols, rows);
      assert buf + gone + body == buf + (gone + body);
      WriteRecord(buf + gone + body, Update(table, ids, cols, rows));
    }

    method LogSegmentFlush(table: Name, sealedRows: nat)
      requires Valid()
      modifies this
      ensures Valid() && log == old(log) + [SegmentFlush(table, sealedRows)]
    {
      var buf := Head(TYPE_SEGMENT_FLUSH, table);
      WriteRecord(buf + PutLe(sealedRows, 8), SegmentFlush(table, sealedRows));
    }
  }
}
