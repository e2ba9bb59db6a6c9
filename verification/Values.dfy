/** The values a column can hold. */
module Values {
  import opened Bytes

  /** A value of one of the column types; a DOUBLE is kept as its bit pattern. */
  datatype Value =
    | Null
    | Int32(n: int) | Int64(n: int) | Double(bits: nat) | Str(s: Name) | Bool(b: bool)
    | Date(n: int) | Timestamp(n: int)

  type Row = seq<Value>

  /** Rows that an operator hands on at a time. */
  const CHUNK_SIZE := 1024

  /** Type codes as they are written to disk; any other code is read as VARCHAR. */
  const INT32: byte := 1
  const INT64: byte := 2
  const DOUBLE: byte := 3
  const VARCHAR: byte := 4
  const BOOL: byte := 5
  const DATE: byte := 6
  const TIMESTAMP: byte := 7

  function TypeOf(v: Value): byte
    requires v != Null
  {
    match v
    case Int32(_) => INT32
    case Int64(_) => INT64
    case Double(_) => DOUBLE
    case Str(_) => VARCHAR
    case Bool(_) => BOOL
    case Date(_) => DATE
    case Timestamp(_) => TIMESTAMP
  }

  /** Within the width of its type, and no longer than a 16-bit length can say. */
  ghost predicate InRange(v: Value) {
    match v
    case Null => true
    case Int32(n) => 0 - Half(4) <= n < Half(4)
    case Date(n) => 0 - Half(4) <= n < Half(4)
    case Int64(n) => 0 - Half(8) <= n < Half(8)
    case Timestamp(n) => 0 - Half(8) <= n < Half(8)
    case Double(b) => b < TWO_64
    case Str(s) => |s| < TWO_16
    case Bool(_) => true
  }
}
