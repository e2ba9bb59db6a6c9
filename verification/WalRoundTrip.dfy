/** Reading back what was written, and why no cut record is taken for a whole one. */
module WalRoundTrip {
  import opened Bytes
  import opened Values
  import opened WalCodec

  /** The parser reads `x` from the bytes `e`, whatever follows them, and leaves what follows. */
  ghost predicate Reads<T>(p: Parser<T>, e: seq<byte>, x: T) {
    forall tail {:trigger p(e + tail)} :: p(e + tail) == Done(x, tail)
  }

  /** More input never changes what a parser has read: it only lengthens what is left. */
  ghost predicate Stable<T>(p: Parser<T>) {
    forall b, q {:trigger p(b + q)} :: p(b).Done? ==> p(b + q) == Done(p(b).v, p(b).rest + q)
  }

  // ---------------------------------------------------------------- what may be logged

  ghost predicate ColOk(c: ColType) {
    c.maxLen < TWO_16
  }

  /** A row of values of the column types, as the writer demands. */
  ghost predicate RowOk(cols: seq<ColType>, row: seq<Value>) {
    && |row| == |cols|
    && forall i :: 0 <= i < |row| ==> InRange(row[i]) && (row[i] != Null ==> PlainCode(cols[i].code) == TypeOf(row[i]))
  }

  /** The type whose layout a code selects. */
  function PlainCode(code: byte): byte {
    if code == INT32 || code == INT64 || code == DOUBLE || code == BOOL || code == DATE || code == TIMESTAMP then code
    else VARCHAR
  }

  ghost predicate ColumnOk(c: Column) {
    && |c.name| < TWO_16 && c.maxLen < TWO_16
    && (c.def.DefaultTo? ==> InRange(c.def.v))
  }

  ghost predicate NonNullDefault(c: Column) {
    c.def.DefaultTo? ==> c.def.v != Null
  }

  ghost predicate RowsOk(cols: seq<ColType>, rows: seq<seq<Value>>) {
    && |cols| < TWO_16 && |rows| < TWO_32
    && (forall i :: 0 <= i < |cols| ==> ColOk(cols[i]))
    && (forall i :: 0 <= i < |rows| ==> RowOk(cols, rows[i]))
  }

  ghost predicate IdsOk(ids: seq<nat>) {
    |ids| < TWO_64 && forall i :: 0 <= i < |ids| ==> ids[i] < TWO_64
  }

  /** Lengths and values within the widths of the format. */
  ghost predicate RecordOk(r: Record) {
    && |r.table| < TWO_16
    && match r
       case Insert(_, cols, rows) => RowsOk(cols, rows)
       case CreateTable(_, schema) => |schema| < TWO_16 && forall i :: 0 <= i < |schema| ==> ColumnOk(schema[i])
       case Delete(_, ids) => IdsOk(ids)
       case Update(_, ids, cols, rows) => IdsOk(ids) && RowsOk(cols, rows)
       case SegmentFlush(_, n) => n < TWO_64
  }

  ghost predicate DefaultsNonNull(r: Record) {
    r.CreateTable? ==> forall i :: 0 <= i < |r.schema| ==> NonNullDefault(r.schema[i])
  }

  // ---------------------------------------------------------------- round trips, part by part

  lemma {:induction false} TakeReads(x: seq<byte>, tail: seq<byte>)
    ensures Take(|x|, x + tail) == Done(x, tail)
  {
  }

  lemma {:induction false} NatReads(v: nat, w: nat, tail: seq<byte>)
    requires v < Pow256(w)
    ensures PNat(w, PutLe(v, w) + tail) == Done(v, tail)
  {
    TakeReads(PutLe(v, w), tail);
    ReadPutLe(v, w);
  }

  lemma {:induction false} SignedReads(n: int, w: nat, tail: seq<byte>)
    requires w > 0 && 0 - Half(w) <= n < Half(w)
    ensures PSigned(w, PutSigned(n, w) + tail) == Done(n, tail)
  {
    SignedRoundTrip(n, w);
    TakeReads(PutSigned(n, w), tail);
  }

  lemma {:induction false} ByteReads(x: byte, tail: seq<byte>)
    ensures PByte([x] + tail) == Done(x, tail)
  {
  }

  lemma {:induction false} NameReads(s: Name, tail: seq<byte>)
    requires |s| < TWO_16
    ensures PName(EncName(s) + tail) == Done(s, tail)
  {
    Widths();
    assert EncName(s) + tail == PutLe(|s|, 2) + (s + tail);
    NatReads(|s|, 2, s + tail);
    TakeReads(s, tail);
  }

  lemma {:induction false} PlainReads(code: byte, v: Value, tail: seq<byte>)
    requires v != Null && InRange(v) && PlainCode(code) == TypeOf(v)
    ensures PPlain(code, EncPlain(v) + tail) == Done(v, tail)
  {
    Widths();
    match v
    case Int32(n) => SignedReads(n, 4, tail);
    case Date(n) => SignedReads(n, 4, tail);
    case Int64(n) => SignedReads(n, 8, tail);
    case Timestamp(n) => SignedReads(n, 8, tail);
    case Double(b) => NatReads(b, 8, tail);
    case Str(s) => NameReads(s, tail);
    case Bool(b) => ByteReads(if b then 1 else 0, tail);
  }

  lemma {:induction false} ValueReads(code: byte, v: Value, tail: seq<byte>)
    requires InRange(v) && (v != Null ==> PlainCode(code) == TypeOf(v))
    ensures PValue(code, EncValue(v) + tail) == Done(v, tail)
  {
    if v == Null {
      ByteReads(1, tail);
    } else {
      assert EncValue(v) + tail == [0] + (EncPlain(v) + tail);
      ByteReads(0, EncPlain(v) + tail);
      PlainReads(code, v, tail);
    }
  }

  lemma Assoc(a: seq<byte>, b: seq<byte>, c: seq<byte>)
    ensures a + b + c == a + (b + c)
  {
  }

  lemma {:induction false} RowTail(cols: seq<ColType>, row: seq<Value>)
    requires RowOk(cols, row) && cols != []
    ensures RowOk(cols[1..], row[1..])
  {
    hide InRange, TypeOf, PlainCode;
  }

  lemma {:induction false} RowReads(cols: seq<ColType>, row: seq<Value>, tail: seq<byte>)
    requires RowOk(cols, row)
    ensures PRow(cols, EncRow(row) + tail) == Done(row, tail)
  {
    hide EncValue, PValue, InRange, TypeOf, PlainCode;
    if cols == [] {
      assert EncRow(row) + tail == tail;
    } else {
      var v, vs := row[0], row[1..];
      RowTail(cols, row);
      Assoc(EncValue(v), EncRow(vs), tail);
      ValueReads(cols[0].code, v, EncRow(vs) + tail);
      RowReads(cols[1..], vs, tail);
      assert row == [v] + vs;
    }
  }

  lemma {:induction false} ManyReads<T>(p: Parser<T>, enc: T -> seq<byte>, xs: seq<T>, tail: seq<byte>)
    requires forall i :: 0 <= i < |xs| ==> Reads(p, enc(xs[i]), xs[i])
    ensures PMany(p, |xs|, EncMany(enc, xs) + tail) == Done(xs, tail)
  {
    if xs == [] {
      assert EncMany(enc, xs) + tail == tail;
    } else {
      var rest := EncMany(enc, xs[1..]) + tail;
      assert EncMany(enc, xs) + tail == enc(xs[0]) + rest;
      assert Reads(p, enc(xs[0]), xs[0]);
      assert p(enc(xs[0]) + rest) == Done(xs[0], rest);
      ManyReads(p, enc, xs[1..], tail);
      assert xs == [xs[0]] + xs[1..];
    }
  }

  lemma {:induction false} ColReads(c: ColType)
    requires ColOk(c)
    ensures Reads(PCol, EncCol(c), c)
  {
    forall tail
      ensures PCol(EncCol(c) + tail) == Done(c, tail)
    {
      Widths();
      assert EncCol(c) + tail == [c.code] + (PutLe(c.maxLen, 2) + tail);
      ByteReads(c.code, PutLe(c.maxLen, 2) + tail);
      NatReads(c.maxLen, 2, tail);
    }
  }

  lemma {:induction false} IdReads(id: nat)
    requires id < TWO_64
    ensures Reads(PId, EncId(id), id)
  {
    forall tail
      ensures PId(EncId(id) + tail) == Done(id, tail)
    {
      Widths();
      NatReads(id, 8, tail);
    }
  }

  lemma {:induction false} IdsRead(ids: seq<nat>, tail: seq<byte>)
    requires IdsOk(ids)
    ensures PIds(EncIds(ids) + tail) == Done(ids, tail)
  {
    var body := EncMany(EncId, ids);
    Widths();
    assert EncIds(ids) + tail == PutLe(|ids|, 8) + (body + tail);
    NatReads(|ids|, 8, body + tail);
    forall i | 0 <= i < |ids|
      ensures Reads(PId, EncId(ids[i]), ids[i])
    {
      IdReads(ids[i]);
    }
    ManyReads(PId, EncId, ids, tail);
  }

  lemma RowsBytes(a: seq<byte>, b: seq<byte>, c: seq<byte>, d: seq<byte>, tail: seq<byte>)
    ensures a + b + c + d + tail == a + (b + (c + (d + tail)))
  {
  }

  lemma {:induction false} RowsRead(cols: seq<ColType>, rows: seq<seq<Value>>, tail: seq<byte>)
    requires RowsOk(cols, rows)
    ensures PRows(EncRows(cols, rows) + tail) == Done((cols, rows), tail)
  {
    hide PutLe, Pow256, EncMany, EncRow, EncCol, PNat, PMany, PRow, PCol, RowOk;
    var cs, rs := EncMany(EncCol, cols), EncMany(EncRow, rows);
    Widths();
    RowsBytes(PutLe(|rows|, 4), PutLe(|cols|, 2), cs, rs, tail);
    NatReads(|rows|, 4, PutLe(|cols|, 2) + (cs + (rs + tail)));
    NatReads(|cols|, 2, cs + (rs + tail));
    forall i | 0 <= i < |cols|
      ensures Reads(PCol, EncCol(cols[i]), cols[i])
    {
      ColReads(cols[i]);
    }
    ManyReads(PCol, EncCol, cols, rs + tail);
    var p := x => PRow(cols, x);
    forall i | 0 <= i < |rows|
      ensures Reads(p, EncRow(rows[i]), rows[i])
    {
      forall t
        ensures p(EncRow(rows[i]) + t) == Done(rows[i], t)
      {
        RowReads(cols, rows[i], t);
      }
    }
    ManyReads(p, EncRow, rows, tail);
  }

  lemma {:induction false} DefaultReads(d: Default, tail: seq<byte>)
    requires d.DefaultTo? ==> d.v != Null && InRange(d.v)
    ensures PDefault(EncDefault(d) + tail) == Done(d, tail)
  {
    match d
    case NoDefault => ByteReads(0, tail);
    case DefaultTo(v) =>
      var body := EncPlain(v) + tail;
      assert EncDefault(d) + tail == [1] + ([TypeOf(v)] + body);
      ByteReads(1, [TypeOf(v)] + body);
      ByteReads(TypeOf(v), body);
      PlainReads(TypeOf(v), v, tail);
  }

  lemma {:induction false} ColumnBytes(c: Column, tail: seq<byte>)
    ensures EncColumn(c) + tail ==
            [c.code] + ([if c.nullable then 1 else 0] + (PutLe(c.maxLen, 2) + (EncName(c.name) + (EncDefault(c.def) + tail))))
  {
    hide PutLe, EncName, EncDefault;
  }

  lemma {:induction false} ColumnReadsAt(c: Column, tail: seq<byte>)
    requires ColumnOk(c) && NonNullDefault(c)
    ensures PColumn(EncColumn(c) + tail) == Done(c, tail)
  {
    hide PutLe, Pow256, EncName, EncDefault, EncColumn, PNat, PName, PDefault, PByte, InRange;
    Widths();
    var flag: byte := if c.nullable then 1 else 0;
    var b4 := EncDefault(c.def) + tail;
    var b3 := EncName(c.name) + b4;
    var b2 := PutLe(c.maxLen, 2) + b3;
    ColumnBytes(c, tail);
    ByteReads(c.code, [flag] + b2);
    ByteReads(flag, b2);
    NatReads(c.maxLen, 2, b3);
    NameReads(c.name, b4);
    DefaultReads(c.def, tail);
  }

  lemma {:induction false} ColumnReads(c: Column)
    requires ColumnOk(c) && NonNullDefault(c)
    ensures Reads(PColumn, EncColumn(c), c)
  {
    hide PColumn, EncColumn;
    forall tail
      ensures PColumn(EncColumn(c) + tail) == Done(c, tail)
    {
      ColumnReadsAt(c, tail);
    }
  }

  lemma {:induction false} SchemaReads(schema: seq<Column>, tail: seq<byte>)
    requires forall i :: 0 <= i < |schema| ==> ColumnOk(schema[i]) && NonNullDefault(schema[i])
    ensures PMany(PColumn, |schema|, EncMany(EncColumn, schema) + tail) == Done(schema, tail)
  {
    forall i | 0 <= i < |schema|
      ensures Reads(PColumn, EncColumn(schema[i]), schema[i])
    {
      ColumnReads(schema[i]);
    }
    ManyReads(PColumn, EncColumn, schema, tail);
  }

  lemma {:induction false} BodyReads(r: Record, tail: seq<byte>)
    requires RecordOk(r) && DefaultsNonNull(r)
    ensures PBody(Tag(r), r.table, EncBody(r) + tail) == Done(r, tail)
  {
    Widths();
    hide PutLe, Pow256, EncRows, EncIds, EncMany, PNat, PRows, PIds, PMany, EncColumn, RowsOk, IdsOk;
    match r
    case Insert(_, cols, rows) => RowsRead(cols, rows, tail);
    case CreateTable(_, schema) =>
      var body := EncMany(EncColumn, schema);
      assert EncBody(r) + tail == PutLe(|schema|, 2) + (body + tail);
      NatReads(|schema|, 2, body + tail);
      SchemaReads(schema, tail);
    case Delete(_, ids) => IdsRead(ids, tail);
    case Update(_, ids, cols, rows) =>
      assert EncBody(r) + tail == EncIds(ids) + (EncRows(cols, rows) + tail);
      IdsRead(ids, EncRows(cols, rows) + tail);
      RowsRead(cols, rows, tail);
    case SegmentFlush(_, n) => NatReads(n, 8, tail);
  }

  lemma {:induction false} PayloadReads(r: Record, tail: seq<byte>)
    requires RecordOk(r) && DefaultsNonNull(r)
    ensures PPayload(Payload(r) + tail) == Done(r, tail)
  {
    hide EncName, EncBody, PName, PBody, RowsOk, IdsOk;
    var body := EncBody(r) + tail;
    assert Payload(r) + tail == [Tag(r)] + (EncName(r.table) + body);
    ByteReads(Tag(r), EncName(r.table) + body);
    NameReads(r.table, body);
    BodyReads(r, tail);
  }

  /** A record is read back as it was written, whatever follows it. */
  lemma {:induction false} RecordReads(hash: Hash, r: Record, tail: seq<byte>)
    requires RecordOk(r) && DefaultsNonNull(r)
    ensures PRecord(hash, Encode(hash, r) + tail) == Done(r, tail)
  {
    hide Payload, PPayload, PutLe, Pow256, ReadLe, RecordOk, DefaultsNonNull;
    var sum := hash(Payload(r));
    var b := Encode(hash, r) + tail;
    var b1 := PutLe(sum, 8) + tail;
    assert b == Payload(r) + b1;
    PayloadReads(r, b1);
    Widths();
    ReadPutLe(sum, 8);
    TakeReads(PutLe(sum, 8), tail);
    assert b[..|b| - |b1|] == Payload(r);
  }

  // ---------------------------------------------------------------- the layout, byte by byte

  const T: Name := [116] // a table named "t"

  /** The type of a record, the name of its table behind its length, and the body. */
  lemma {:induction false} RecordLayout(r: Record)
    requires r.table == T
    ensures Payload(r) == [if r.Insert? then 1 else if r.CreateTable? then 2 else if r.Delete? then 3
                           else if r.Update? then 4 else 5, 1, 0, 116] + EncBody(r)
  {
    SmallLe(1);
    var tag, body := Tag(r), EncBody(r);
    assert EncName(T) == [1, 0, 116];
    hide EncBody, PutLe, EncName;
    assert [tag] + [1, 0, 116] == [tag, 1, 0, 116];
  }

  /** A NULL flag, then the value: numbers in their width, strings behind their length. */
  lemma {:induction false} ValueLayout()
    ensures EncValue(Null) == [1] && EncValue(Bool(true)) == [0, 1] && EncValue(Bool(false)) == [0, 0]
    ensures EncValue(Int32(3)) == EncValue(Date(3)) == [0, 3, 0, 0, 0]
    ensures EncValue(Int64(3)) == EncValue(Timestamp(3)) == EncValue(Double(3)) == [0, 3, 0, 0, 0, 0, 0, 0, 0]
    ensures EncValue(Str([65])) == [0, 1, 0, 65]
  {
    SmallLe(1);
    SmallLe(3);
    hide PutLe;
  }

  /** A column of a row record, and one of a schema: type, NULL flag, length, name, and a default behind flag and type. */
  lemma {:induction false} ColumnLayout()
    ensures EncCol(ColType(VARCHAR, 9)) == [4, 9, 0]
    ensures EncColumn(Column([97], VARCHAR, true, 9, NoDefault)) == [4, 1, 9, 0, 1, 0, 97, 0]
    ensures EncColumn(Column([98], BOOL, false, 0, DefaultTo(Bool(true)))) == [5, 0, 0, 0, 1, 0, 98, 1, 5, 1]
  {
    SmallLe(0);
    SmallLe(1);
    SmallLe(9);
    hide PutLe;
  }
}
