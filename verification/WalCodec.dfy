/** The write-ahead log as bytes: records, how they are written, how they are read back. */
module WalCodec {
  import opened Bytes
  import opened Values

  datatype ColType = ColType(code: byte, maxLen: nat)
  datatype Default = NoDefault | DefaultTo(v: Value)
  datatype Column = Column(name: Name, code: byte, nullable: bool, maxLen: nat, def: Default)

  datatype Record =
    | Insert(table: Name, cols: seq<ColType>, rows: seq<seq<Value>>)
    | CreateTable(table: Name, schema: seq<Column>)
    | Delete(table: Name, ids: seq<nat>)
    | Update(table: Name, ids: seq<nat>, cols: seq<ColType>, rows: seq<seq<Value>>)
    | SegmentFlush(table: Name, sealedRows: nat)

  const TYPE_INSERT: byte := 1
  const TYPE_CREATE: byte := 2
  const TYPE_DELETE: byte := 3
  const TYPE_UPDATE: byte := 4
  const TYPE_SEGMENT_FLUSH: byte := 5
  const MAGIC: seq<byte> := [78, 87, 65, 76]  // "NWAL"
  const HEADER: seq<byte> := [78, 87, 65, 76, 1, 0]

  // ---------------------------------------------------------------- writing

  function EncName(s: Name): seq<byte> {
    PutLe(|s|, 2) + s
  }

  function EncMany<T>(enc: T -> seq<byte>, xs: seq<T>): seq<byte> {
    if xs == [] then [] else enc(xs[0]) + EncMany(enc, xs[1..])
  }

  function EncFlag(b: bool): seq<byte> {
    [if b then 1 else 0]
  }

  /** The bytes of a value that is not NULL. */
  function EncPlain(v: Value): seq<byte> {
    match v
    case Null => []
    case Int32(n) => PutSigned(n, 4)
    case Date(n) => PutSigned(n, 4)
    case Int64(n) => PutSigned(n, 8)
    case Timestamp(n) => PutSigned(n, 8)
    case Double(b) => PutLe(b, 8)
    case Str(s) => EncName(s)
    case Bool(b) => EncFlag(b)
  }

  /** A value of a row: a NULL flag, then the bytes of the value. */
  function EncValue(v: Value): seq<byte> {
    if v == Null then [1] else [0] + EncPlain(v)
  }

  function EncRow(row: seq<Value>): seq<byte> {
    if row == [] then [] else EncValue(row[0]) + EncRow(row[1..])
  }

  function EncCol(c: ColType): seq<byte> {
    [c.code] + PutLe(c.maxLen, 2)
  }

  function EncId(id: nat): seq<byte> {
    PutLe(id, 8)
  }

  /** A default is written with the type of its value; a NULL default is written as an INT32 without bytes. */
  function EncDefault(d: Default): seq<byte> {
    match d
    case NoDefault => [0]
    case DefaultTo(v) => [1] + [if v == Null then INT32 else TypeOf(v)] + EncPlain(v)
  }

  function EncColumn(c: Column): seq<byte> {
    [c.code] + EncFlag(c.nullable) + PutLe(c.maxLen, 2) + EncName(c.name) + EncDefault(c.def)
  }

  function EncRows(cols: seq<ColType>, rows: seq<seq<Value>>): seq<byte> {
    PutLe(|rows|, 4) + PutLe(|cols|, 2) + EncMany(EncCol, cols) + EncMany(EncRow, rows)
  }

  function EncIds(ids: seq<nat>): seq<byte> {
    PutLe(|ids|, 8) + EncMany(EncId, ids)
  }

  function Tag(r: Record): byte {
    match r
    case Insert(_, _, _) => TYPE_INSERT
    case CreateTable(_, _) => TYPE_CREATE
    case Delete(_, _) => TYPE_DELETE
    case Update(_, _, _, _) => TYPE_UPDATE
    case SegmentFlush(_, _) => TYPE_SEGMENT_FLUSH
  }

  function EncBody(r: Record): seq<byte> {
    match r
    case Insert(_, cols, rows) => EncRows(cols, rows)
    case CreateTable(_, schema) => PutLe(|schema|, 2) + EncMany(EncColumn, schema)
    case Delete(_, ids) => EncIds(ids)
    case Update(_, ids, cols, rows) => EncIds(ids) + EncRows(cols, rows)
    case SegmentFlush(_, n) => PutLe(n, 8)
  }

  function Payload(r: Record): seq<byte> {
    [Tag(r)] + EncName(r.table) + EncBody(r)
  }

  /** The checksum of the log, kept abstract. */
  type Hash = seq<byte> -> nat

  function Encode(hash: Hash, r: Record): seq<byte> {
    Payload(r) + PutLe(hash(Payload(r)), 8)
  }

  function EncodeAll(hash: Hash, rs: seq<Record>): seq<byte> {
    if rs == [] then [] else Encode(hash, rs[0]) + EncodeAll(hash, rs[1..])
  }

  // ---------------------------------------------------------------- reading

  datatype Parsed<T> = Fail | Done(v: T, rest: seq<byte>)

  type Parser<!T> = seq<byte> -> Parsed<T>

  function Take(n: nat, b: seq<byte>): (r: Parsed<seq<byte>>)
    ensures r.Done? ==> |r.rest| <= |b|
  {
    if |b| < n then Fail else Done(b[..n], b[n..])
  }

  function PNat(w: nat, b: seq<byte>): (r: Parsed<nat>)
    ensures r.Done? ==> |r.rest| <= |b|
  {
    match Take(w, b)
    case Fail => Fail
    case Done(x, rest) => Done(ReadLe(x), rest)
  }

  function PSigned(w: nat, b: seq<byte>): (r: Parsed<int>)
    ensures r.Done? ==> |r.rest| <= |b|
  {
    match Take(w, b)
    case Fail => Fail
    case Done(x, rest) => Done(ReadSigned(x), rest)
  }

  function PName(b: seq<byte>): (r: Parsed<Name>)
    ensures r.Done? ==> |r.rest| <= |b|
  {
    match PNat(2, b)
    case Fail => Fail
    case Done(n, rest) => Take(n, rest)
  }

  function PByte(b: seq<byte>): (r: Parsed<byte>)
    ensures r.Done? ==> |r.rest| <= |b|
  {
    if b == [] then Fail else Done(b[0], b[1..])
  }

  function PMany<T>(p: Parser<T>, n: nat, b: seq<byte>): (r: Parsed<seq<T>>)
    ensures (forall x :: p(x).Done? ==> |p(x).rest| <= |x|) ==> r.Done? ==> |r.rest| <= |b|
  {
    if n == 0 then Done([], b)
    else
      match p(b)
      case Fail => Fail
      case Done(x, rest) =>
        match PMany(p, n - 1, rest)
        case Fail => Fail
        case Done(xs, rest') => Done([x] + xs, rest')
  }

  /** The bytes of a value of the given type; in a row, an unknown type is read as a string. */
  function PPlain(code: byte, b: seq<byte>): (r: Parsed<Value>)
    ensures r.Done? ==> |r.rest| <= |b|
  {
    if code == INT32 then (match PSigned(4, b) case Fail => Fail case Done(n, t) => Done(Int32(n), t))
    else if code == INT64 then (match PSigned(8, b) case Fail => Fail case Done(n, t) => Done(Int64(n), t))
    else if code == DOUBLE then (match PNat(8, b) case Fail => Fail case Done(n, t) => Done(Double(n), t))
    else if code == BOOL then (match PByte(b) case Fail => Fail case Done(n, t) => Done(Bool(n != 0), t))
    else if code == DATE then (match PSigned(4, b) case Fail => Fail case Done(n, t) => Done(Date(n), t))
    else if code == TIMESTAMP then (match PSigned(8, b) case Fail => Fail case Done(n, t) => Done(Timestamp(n), t))
    else (match PName(b) case Fail => Fail case Done(s, t) => Done(Str(s), t))
  }

  function PValue(code: byte, b: seq<byte>): (r: Parsed<Value>)
    ensures r.Done? ==> |r.rest| <= |b|
  {
    match PByte(b)
    case Fail => Fail
    case Done(isNull, rest) => if isNull != 0 then Done(Null, rest) else PPlain(code, rest)
  }

  function PRow(cols: seq<ColType>, b: seq<byte>): (r: Parsed<seq<Value>>)
    ensures r.Done? ==> |r.rest| <= |b|
  {
    if cols == [] then Done([], b)
    else
      match PValue(cols[0].code, b)
      case Fail => Fail
      case Done(v, rest) =>
        match PRow(cols[1..], rest)
        case Fail => Fail
        case Done(vs, rest') => Done([v] + vs, rest')
  }

  function PCol(b: seq<byte>): (r: Parsed<ColType>)
    ensures r.Done? ==> |r.rest| <= |b|
  {
    match PByte(b)
    case Fail => Fail
    case Done(code, rest) =>
      match PNat(2, rest)
      case Fail => Fail
      case Done(m, rest') => Done(ColType(code, m), rest')
  }

  function PId(b: seq<byte>): (r: Parsed<nat>)
    ensures r.Done? ==> |r.rest| <= |b|
  {
    PNat(8, b)
  }

  function PDefault(b: seq<byte>): (r: Parsed<Default>)
    ensures r.Done? ==> |r.rest| <= |b|
  {
    match PByte(b)
    case Fail => Fail
    case Done(has, rest) =>
      if has == 0 then Done(NoDefault, rest)
      else
        match PByte(rest)
        case Fail => Fail
        case Done(code, rest') =>
          if code == 0 || code > TIMESTAMP then Fail
          else
            match PPlain(code, rest')
            case Fail => Fail
            case Done(v, rest'') => Done(DefaultTo(v), rest'')
  }

  function PColumn(b: seq<byte>): (r: Parsed<Column>)
    ensures r.Done? ==> |r.rest| <= |b|
  {
    match PByte(b)
    case Fail => Fail
    case Done(code, b1) =>
      match PByte(b1)
      case Fail => Fail
      case Done(nullable, b2) =>
        match PNat(2, b2)
        case Fail => Fail
        case Done(maxLen, b3) =>
          match PName(b3)
          case Fail => Fail
          case Done(name, b4) =>
            match PDefault(b4)
            case Fail => Fail
            case Done(def, b5) => Done(Column(name, code, nullable != 0, maxLen, def), b5)
  }

  function PRows(b: seq<byte>): (r: Parsed<(seq<ColType>, seq<seq<Value>>)>)
    ensures r.Done? ==> |r.rest| <= |b|
  {
    match PNat(4, b)
    case Fail => Fail
    case Done(nRows, b1) =>
      match PNat(2, b1)
      case Fail => Fail
      case Done(nCols, b2) =>
        match PMany(PCol, nCols, b2)
        case Fail => Fail
        case Done(cols, b3) =>
          match PMany(x => PRow(cols, x), nRows, b3)
          case Fail => Fail
          case Done(rows, b4) => Done((cols, rows), b4)
  }

  function PIds(b: seq<byte>): (r: Parsed<seq<nat>>)
    ensures r.Done? ==> |r.rest| <= |b|
  {
    match PNat(8, b)
    case Fail => Fail
    case Done(n, rest) => PMany(PId, n, rest)
  }

  function PBody(tag: byte, table: Name, b: seq<byte>): (r: Parsed<Record>)
    ensures r.Done? ==> |r.rest| <= |b|
  {
    if tag == TYPE_CREATE then
      (match PNat(2, b)
       case Fail => Fail
       case Done(n, b1) => match PMany(PColumn, n, b1) case Fail => Fail case Done(s, t) => Done(CreateTable(table, s), t))
    else if tag == TYPE_DELETE then
      (match PIds(b) case Fail => Fail case Done(ids, t) => Done(Delete(table, ids), t))
    else if tag == TYPE_UPDATE then
      (match PIds(b)
       case Fail => Fail
       case Done(ids, b1) => match PRows(b1) case Fail => Fail case Done(x, t) => Done(Update(table, ids, x.0, x.1), t))
    else if tag == TYPE_SEGMENT_FLUSH then
      (match PNat(8, b) case Fail => Fail case Done(n, t) => Done(SegmentFlush(table, n), t))
    else
      (match PRows(b) case Fail => Fail case Done(x, t) => Done(Insert(table, x.0, x.1), t))
  }

  function PPayload(b: seq<byte>): (r: Parsed<Record>)
    ensures r.Done? ==> |r.rest| <= |b|
  {
    match PByte(b)
    case Fail => Fail
    case Done(tag, b1) =>
      if tag == 0 || tag > TYPE_SEGMENT_FLUSH then Fail
      else
        match PName(b1)
        case Fail => Fail
        case Done(table, b2) => PBody(tag, table, b2)
  }

  /** A record whose stored checksum is that of the bytes read before it. */
  function PRecord(hash: Hash, b: seq<byte>): (p: Parsed<Record>)
    ensures p.Done? ==> |p.rest| < |b|
  {
    match PPayload(b)
    case Fail => Fail
    case Done(rec, b1) =>
      match PNat(8, b1)
      case Fail => Fail
      case Done(stored, b2) =>
        if stored == hash(b[..|b| - |b1|]) % TWO_64 then Done(rec, b2) else Fail
  }

  /** The records from `pos` on, each with its offset, up to the first that cannot be read. */
  function ReadFrom(hash: Hash, file: seq<byte>, pos: nat): seq<(nat, Record)>
    requires pos <= |file|
    decreases |file| - pos
  {
    match PRecord(hash, file[pos..])
    case Fail => []
    case Done(rec, rest) => [(pos, rec)] + ReadFrom(hash, file, |file| - |rest|)
  }

  // ---------------------------------------------------------------- what is left is the end of the bytes

  ghost predicate Suffix(a: seq<byte>, b: seq<byte>) {
    |a| <= |b| && a == b[|b| - |a|..]
  }

  lemma {:induction false} SuffixTwice(a: seq<byte>, b: seq<byte>, c: seq<byte>)
    requires Suffix(a, b) && Suffix(b, c)
    ensures Suffix(a, c)
  {
    assert a == c[|c| - |b|..][|b| - |a|..] == c[|c| - |a|..];
  }

  lemma {:induction false} NatRest(w: nat, b: seq<byte>)
    ensures PNat(w, b).Done? ==> Suffix(PNat(w, b).rest, b)
    ensures PSigned(w, b).Done? ==> Suffix(PSigned(w, b).rest, b)
  {
  }

  lemma {:induction false} ByteRest(b: seq<byte>)
    ensures PByte(b).Done? ==> Suffix(PByte(b).rest, b)
  {
  }

  lemma {:induction false} NameRest(b: seq<byte>)
    ensures PName(b).Done? ==> Suffix(PName(b).rest, b)
  {
    NatRest(2, b);
    if PName(b).Done? {
      var rest := PNat(2, b).rest;
      assert Suffix(PName(b).rest, rest);
      SuffixTwice(PName(b).rest, rest, b);
    }
  }

  lemma {:induction false} PlainRest(code: byte, b: seq<byte>)
    ensures PPlain(code, b).Done? ==> Suffix(PPlain(code, b).rest, b)
  {
    NatRest(4, b);
    NatRest(8, b);
    ByteRest(b);
    NameRest(b);
    hide PNat, PSigned, PByte, PName, Suffix;
  }

  lemma {:induction false} ValueRest(code: byte, b: seq<byte>)
    ensures PValue(code, b).Done? ==> Suffix(PValue(code, b).rest, b)
  {
    ByteRest(b);
    hide PByte, PPlain, Suffix;
    if PByte(b).Done? {
      PlainRest(code, PByte(b).rest);
      if PPlain(code, PByte(b).rest).Done? {
        SuffixTwice(PPlain(code, PByte(b).rest).rest, PByte(b).rest, b);
      }
    }
  }

  lemma {:induction false} RowRest(cols: seq<ColType>, b: seq<byte>)
    ensures PRow(cols, b).Done? ==> Suffix(PRow(cols, b).rest, b)
    decreases |cols|
  {
    hide PValue;
    if cols == [] {
    } else if PValue(cols[0].code, b).Done? {
      var rest := PValue(cols[0].code, b).rest;
      ValueRest(cols[0].code, b);
      RowRest(cols[1..], rest);
      if PRow(cols[1..], rest).Done? {
        SuffixTwice(PRow(cols[1..], rest).rest, rest, b);
      }
    }
  }

  lemma {:induction false} ManyRest<T>(p: Parser<T>, n: nat, b: seq<byte>)
    requires forall x :: p(x).Done? ==> Suffix(p(x).rest, x)
    ensures PMany(p, n, b).Done? ==> Suffix(PMany(p, n, b).rest, b)
    decreases n
  {
    if n > 0 && p(b).Done? {
      var rest := p(b).rest;
      ManyRest(p, n - 1, rest);
      if PMany(p, n - 1, rest).Done? {
        SuffixTwice(PMany(p, n - 1, rest).rest, rest, b);
      }
    }
  }

  lemma {:induction false} ColRest(b: seq<byte>)
    ensures PCol(b).Done? ==> Suffix(PCol(b).rest, b)
  {
    ByteRest(b);
    hide PByte, PNat, Suffix;
    if PByte(b).Done? {
      NatRest(2, PByte(b).rest);
      if PCol(b).Done? {
        SuffixTwice(PCol(b).rest, PByte(b).rest, b);
      }
    }
  }

  lemma {:induction false} DefaultRest(b: seq<byte>)
    ensures PDefault(b).Done? ==> Suffix(PDefault(b).rest, b)
  {
    ByteRest(b);
    hide PByte, PPlain, Suffix;
    if PByte(b).Done? && PByte(b).v != 0 {
      var b1 := PByte(b).rest;
      ByteRest(b1);
      if PDefault(b).Done? {
        var b2 := PByte(b1).rest;
        PlainRest(PByte(b1).v, b2);
        SuffixTwice(b2, b1, b);
        SuffixTwice(PDefault(b).rest, b2, b);
      }
    }
  }

  lemma {:induction false} ColumnRest(b: seq<byte>)
    ensures PColumn(b).Done? ==> Suffix(PColumn(b).rest, b)
  {
    hide PByte, PNat, PName, PDefault, Suffix;
    if PColumn(b).Done? {
      var b1 := PByte(b).rest;
      var b2 := PByte(b1).rest;
      var b3 := PNat(2, b2).rest;
      var b4 := PName(b3).rest;
      ByteRest(b);
      ByteRest(b1);
      NatRest(2, b2);
      NameRest(b3);
      DefaultRest(b4);
      SuffixTwice(b2, b1, b);
      SuffixTwice(b3, b2, b);
      SuffixTwice(b4, b3, b);
      SuffixTwice(PColumn(b).rest, b4, b);
    }
  }

  lemma {:induction false} RowsRest(b: seq<byte>)
    ensures PRows(b).Done? ==> Suffix(PRows(b).rest, b)
  {
    hide PNat, PCol, PRow, PMany, Suffix;
    if PRows(b).Done? {
      var b1 := PNat(4, b).rest;
      var b2 := PNat(2, b1).rest;
      var cols := PMany(PCol, PNat(2, b1).v, b2);
      NatRest(4, b);
      NatRest(2, b1);
      forall x {
        ColRest(x);
      }
      ManyRest(PCol, PNat(2, b1).v, b2);
      forall x {
        RowRest(cols.v, x);
      }
      ManyRest(x => PRow(cols.v, x), PNat(4, b).v, cols.rest);
      SuffixTwice(b2, b1, b);
      SuffixTwice(cols.rest, b2, b);
      SuffixTwice(PRows(b).rest, cols.rest, b);
    }
  }

  lemma {:induction false} IdsRest(b: seq<byte>)
    ensures PIds(b).Done? ==> Suffix(PIds(b).rest, b)
  {
    NatRest(8, b);
    hide PNat, PMany, Suffix;
    if PIds(b).Done? {
      var b1 := PNat(8, b).rest;
      forall x {
        NatRest(8, x);
      }
      ManyRest(PId, PNat(8, b).v, b1);
      SuffixTwice(PIds(b).rest, b1, b);
    }
  }

  lemma {:induction false} BodyRest(tag: byte, table: Name, b: seq<byte>)
    ensures PBody(tag, table, b).Done? ==> Suffix(PBody(tag, table, b).rest, b)
  {
    NatRest(2, b);
    NatRest(8, b);
    IdsRest(b);
    RowsRest(b);
    hide PNat, PMany, PColumn, PIds, PRows, Suffix;
    if PBody(tag, table, b).Done? {
      if tag == TYPE_CREATE {
        var b1 := PNat(2, b).rest;
        forall x {
          ColumnRest(x);
        }
        ManyRest(PColumn, PNat(2, b).v, b1);
        SuffixTwice(PBody(tag, table, b).rest, b1, b);
      } else if tag == TYPE_UPDATE {
        var b1 := PIds(b).rest;
        RowsRest(b1);
        SuffixTwice(PBody(tag, table, b).rest, b1, b);
      }
    }
  }

  lemma {:induction false} PayloadRest(b: seq<byte>)
    ensures PPayload(b).Done? ==> Suffix(PPayload(b).rest, b)
  {
    hide PByte, PName, PBody, Suffix;
    if PPayload(b).Done? {
      var b1 := PByte(b).rest;
      var b2 := PName(b1).rest;
      ByteRest(b);
      NameRest(b1);
      BodyRest(PByte(b).v, PName(b1).v, b2);
      SuffixTwice(b2, b1, b);
      SuffixTwice(PPayload(b).rest, b2, b);
    }
  }

  // ---------------------------------------------------------------- whatever the bytes

  /** The `n` bytes from `pos` on are followed by their checksum. */
  ghost predicate Sealed(hash: Hash, file: seq<byte>, pos: nat, n: nat) {
    pos + n + 8 <= |file| && file[pos + n..pos + n + 8] == PutLe(hash(file[pos..pos + n]), 8)
  }

  /** Sealed records that lie one behind the other from `pos` on. */
  ghost predicate SealedChain(hash: Hash, file: seq<byte>, pos: nat, records: seq<(nat, Record)>)
    decreases |records|
  {
    records == [] ||
    (records[0].0 == pos && exists n :: Sealed(hash, file, pos, n) && SealedChain(hash, file, pos + n + 8, records[1..]))
  }

  lemma {:induction false} StoredIs(stored: seq<byte>, h: nat)
    requires |stored| == 8 && ReadLe(stored) == h % TWO_64
    ensures stored == PutLe(h, 8)
  {
    PutReadLe(stored);
    Widths();
    PutLeCut(h, 8);
    hide ReadLe, PutLe;
  }

  /** A record is read from bytes that are followed by their checksum, whatever the bytes. */
  lemma {:induction false} RecordSealed(hash: Hash, file: seq<byte>, pos: nat) returns (n: nat)
    requires pos <= |file| && PRecord(hash, file[pos..]).Done?
    ensures Sealed(hash, file, pos, n) && |file| - |PRecord(hash, file[pos..]).rest| == pos + n + 8
    ensures PPayload(file[pos..]).Done? && n == |file[pos..]| - |PPayload(file[pos..]).rest|
  {
    var b := file[pos..];
    var b1 := PPayload(b).rest;
    PayloadRest(b);
    hide PPayload;
    n := |b| - |b1|;
    assert b1 == b[n..] == file[pos + n..];
    assert b[..n] == file[pos..pos + n];
    StoredIs(b1[..8], hash(b[..n]));
    assert b1[..8] == file[pos + n..pos + n + 8];
  }

  lemma {:induction false} ChainCons(hash: Hash, file: seq<byte>, pos: nat, n: nat, r: Record, more: seq<(nat, Record)>)
    requires Sealed(hash, file, pos, n) && SealedChain(hash, file, pos + n + 8, more)
    ensures SealedChain(hash, file, pos, [(pos, r)] + more)
  {
    hide Sealed;
    assert ([(pos, r)] + more)[1..] == more;
  }

  lemma {:induction false} NoChain(hash: Hash, file: seq<byte>, pos: nat)
    ensures SealedChain(hash, file, pos, [])
  {
  }

  lemma {:induction false} ReadSealed(hash: Hash, file: seq<byte>, pos: nat)
    requires pos <= |file|
    ensures SealedChain(hash, file, pos, ReadFrom(hash, file, pos))
    decreases |file| - pos
  {
    hide PRecord, Sealed, SealedChain, PPayload;
    var p := PRecord(hash, file[pos..]);
    if p.Done? {
      var n := RecordSealed(hash, file, pos);
      ReadSealed(hash, file, pos + n + 8);
      ChainCons(hash, file, pos, n, p.v, ReadFrom(hash, file, pos + n + 8));
    } else {
      NoChain(hash, file, pos);
    }
  }

  datatype ReadResult = BadHeader | Records(records: seq<(nat, Record)>)

  /** The reading loop: one pass from `start`, stopping at the first record that is cut or damaged. */
  method ReadRecords(hash: Hash, file: seq<byte>, start: nat) returns (records: seq<(nat, Record)>)
    requires start <= |file|
    ensures records == ReadFrom(hash, file, start) && SealedChain(hash, file, start, records)
  {
    hide PRecord, SealedChain, Sealed;
    ReadSealed(hash, file, start);
    records := [];
    var pos := start;
    var p := PRecord(hash, file[pos..]);
    while p.Done?
      invariant pos <= |file| && p == PRecord(hash, file[pos..])
      invariant ReadFrom(hash, file, start) == records + ReadFrom(hash, file, pos)
      decreases |file| - pos
    {
      ghost var more := ReadFrom(hash, file, |file| - |p.rest|);
      assert records + ([(pos, p.v)] + more) == records + [(pos, p.v)] + more;
      records := records + [(pos, p.v)];
      pos := |file| - |p.rest|;
      p := PRecord(hash, file[pos..]);
    }
    assert records + [] == records;
  }

  /** Reads a whole log: a header that cannot be read or has other magic bytes is an error. */
  method ReadAll(hash: Hash, file: seq<byte>) returns (r: ReadResult)
    ensures r.BadHeader? <==> |file| < 6 || file[..4] != MAGIC
    ensures r.Records? ==> r.records == ReadFrom(hash, file, 6) && SealedChain(hash, file, 6, r.records)
  {
    if |file| < 6 || file[..4] != MAGIC {
      r := BadHeader;
    } else {
      var records := ReadRecords(hash, file, 6);
      r := Records(records);
    }
  }
}
