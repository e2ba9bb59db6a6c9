/** Index keys: the bytes of a key, and why comparing bytes is comparing values. */
module IndexKeys {
  import opened Bytes
  import opened BTreeSpec

  /** Column types that an index orders; INT32 and DATE share one layout, INT64 and TIMESTAMP another. */
  datatype ColSpec = Fixed(width: nat) | Varchar(maxLen: nat) {
    ghost predicate Ok() {
      match this
      case Fixed(w) => w == 4 || w == 8
      case Varchar(m) => 0 < m < TWO_16
    }

    /** Bytes of a value, without the leading NULL flag. */
    function Size(): nat {
      match this
      case Fixed(w) => w
      case Varchar(m) => m + 2
    }
  }

  datatype Cell = Null | Int(n: int) | Str(s: Name)

  /** A value of the column's type. A string longer than the column is allowed: its key is cut. */
  ghost predicate Fits(spec: ColSpec, v: Cell) {
    match v
    case Null => true
    case Int(n) => spec.Fixed? && 0 - Half(spec.width) <= n < Half(spec.width)
    case Str(_) => spec.Varchar?
  }

  function Zeros(n: nat): (z: seq<byte>)
    ensures |z| == n
  {
    if n == 0 then [] else [0] + Zeros(n - 1)
  }

  function Cut(s: Name, n: nat): (r: Name)
    ensures |r| <= n && r <= s
  {
    if |s| <= n then s else s[..n]
  }

  function EncodeCell(spec: ColSpec, v: Cell): seq<byte> {
    match v
    case Null => [0] + Zeros(spec.Size())
    case Int(n) => [1] + PutSigned(n, spec.Size())
    case Str(s) =>
      var m := if spec.Varchar? then spec.maxLen else 0;
      var t := Cut(s, m);
      [1] + PutLe(|t|, 2) + t + Zeros(m - |t|)
  }

  /** The key of a row of values; columns that are missing count as NULL. */
  function EncodeKey(specs: seq<ColSpec>, vals: seq<Cell>): seq<byte> {
    if specs == [] then []
    else
      EncodeCell(specs[0], if vals == [] then Null else vals[0]) +
      EncodeKey(specs[1..], if vals == [] then [] else vals[1..])
  }

  function KeySize(specs: seq<ColSpec>): nat {
    if specs == [] then 0 else 1 + specs[0].Size() + KeySize(specs[1..])
  }

  // ---------------------------------------------------------------- comparing values

  function Sign(a: int, b: int): int {
    if a < b then -1 else if a > b then 1 else 0
  }

  /** Bytewise up to the shorter length, then by length. */
  function CompareStr(a: Name, b: Name): int {
    if a == [] || b == [] then Sign(|a|, |b|)
    else if a[0] != b[0] then Sign(a[0], b[0])
    else CompareStr(a[1..], b[1..])
  }

  /** NULL before everything, then numbers by value, strings bytewise. */
  function CompareCell(a: Cell, b: Cell): int {
    match (a, b)
    case (Null, Null) => 0
    case (Null, _) => -1
    case (_, Null) => 1
    case (Int(m), Int(n)) => Sign(m, n)
    case (Str(s), Str(t)) => CompareStr(s, t)
    case (Int(_), Str(_)) => -1
    case (Str(_), Int(_)) => 1
  }

  function CutCell(spec: ColSpec, v: Cell): Cell {
    match v
    case Str(s) => Str(Cut(s, if spec.Varchar? then spec.maxLen else 0))
    case _ => v
  }

  /** Column by column over `specs`, strings cut to their column. */
  function CompareVals(specs: seq<ColSpec>, a: seq<Cell>, b: seq<Cell>): int {
    if specs == [] then 0
    else
      var x, y := if a == [] then Null else a[0], if b == [] then Null else b[0];
      var c := CompareCell(CutCell(specs[0], x), CutCell(specs[0], y));
      if c != 0 then c
      else CompareVals(specs[1..], if a == [] then [] else a[1..], if b == [] then [] else b[1..])
  }

  // ---------------------------------------------------------------- what the order is

  /** At the first byte that differs, or as a proper prefix. */
  ghost predicate StrBelow(a: Name, b: Name) {
    (|a| < |b| && a == b[..|a|]) || exists i :: 0 <= i < |a| && i < |b| && DiffersAt(a, b, i) && a[i] < b[i]
  }

  ghost predicate DiffersAt(a: Name, b: Name, i: nat)
    requires i <= |a| && i <= |b|
  {
    a[..i] == b[..i]
  }

  /** NULL is below everything else, numbers by value, strings by their bytes. */
  ghost predicate CellBelow(a: Cell, b: Cell) {
    match (a, b)
    case (Null, _) => !b.Null?
    case (Int(m), Int(n)) => m < n
    case (Str(s), Str(t)) => StrBelow(s, t)
    case (Int(_), Str(_)) => true
    case _ => false
  }

  lemma {:induction false} StrMeans(a: Name, b: Name)
    ensures CompareStr(a, b) < 0 <==> StrBelow(a, b)
    decreases |a|
  {
    if a != [] && b != [] && a[0] == b[0] {
      var a', b' := a[1..], b[1..];
      StrMeans(a', b');
      if StrBelow(a', b') {
        if |a'| < |b'| && a' == b'[..|a'|] {
          assert a == [a[0]] + a' && b[..|a|] == [b[0]] + b'[..|a'|];
        } else {
          var i :| 0 <= i < |a'| && i < |b'| && DiffersAt(a', b', i) && a'[i] < b'[i];
          assert a[..i + 1] == [a[0]] + a'[..i] && b[..i + 1] == [b[0]] + b'[..i];
          assert DiffersAt(a, b, i + 1) && a[i + 1] < b[i + 1];
        }
      }
      if StrBelow(a, b) {
        if |a| < |b| && a == b[..|a|] {
          assert a' == b[..|a|][1..] == b'[..|a'|];
        } else {
          var i :| 0 <= i < |a| && i < |b| && DiffersAt(a, b, i) && a[i] < b[i];
          assert a[..i][1..] == a'[..i - 1] && b[..i][1..] == b'[..i - 1];
          assert DiffersAt(a', b', i - 1) && a'[i - 1] < b'[i - 1];
        }
      }
    } else if a != [] && b != [] {
      FirstDiffers(a, b);
    }
  }

  lemma {:induction false} FirstDiffers(a: Name, b: Name)
    requires a != [] && b != [] && a[0] != b[0]
    ensures StrBelow(a, b) <==> a[0] < b[0]
  {
    forall i | 0 < i <= |a| && i <= |b|
      ensures a[..i] != b[..i]
    {
      assert a[..i][0] == a[0] && b[..i][0] == b[0];
    }
    assert a == a[..|a|];
    assert DiffersAt(a, b, 0);
  }

  lemma {:induction false} CellMeans(a: Cell, b: Cell)
    ensures CompareCell(a, b) < 0 <==> CellBelow(a, b)
  {
    if a.Str? && b.Str? {
      StrMeans(a.s, b.s);
    }
  }

  /** Column `c` of a key, cut to its width; a missing one is NULL. */
  function KeyCell(specs: seq<ColSpec>, vals: seq<Cell>, c: nat): Cell
    requires c < |specs|
  {
    if c < |vals| then CutCell(specs[c], vals[c]) else Null
  }

  /** Column `c` is the first in which the keys differ, and there `a` is below. */
  ghost predicate BelowAt(specs: seq<ColSpec>, a: seq<Cell>, b: seq<Cell>, c: nat)
    requires c < |specs|
  {
    && (forall j :: 0 <= j < c ==> KeyCell(specs, a, j) == KeyCell(specs, b, j))
    && CellBelow(KeyCell(specs, a, c), KeyCell(specs, b, c))
  }

  ghost predicate KeyBelow(specs: seq<ColSpec>, a: seq<Cell>, b: seq<Cell>) {
    exists c :: 0 <= c < |specs| && BelowAt(specs, a, b, c)
  }

  lemma {:induction false} KeyCellNext(specs: seq<ColSpec>, vals: seq<Cell>, c: nat)
    requires 0 < c < |specs|
    ensures KeyCell(specs, vals, c) == KeyCell(specs[1..], if vals == [] then [] else vals[1..], c - 1)
  {
  }

  /** One key is below another exactly if it is at the first column in which they differ. */
  lemma {:induction false} ValsMeans(specs: seq<ColSpec>, a: seq<Cell>, b: seq<Cell>)
    ensures CompareVals(specs, a, b) < 0 <==> KeyBelow(specs, a, b)
    decreases |specs|
  {
    if specs != [] {
      var a', b' := if a == [] then [] else a[1..], if b == [] then [] else b[1..];
      var x, y := KeyCell(specs, a, 0), KeyCell(specs, b, 0);
      assert x == CutCell(specs[0], if a == [] then Null else a[0]) && y == CutCell(specs[0], if b == [] then Null else b[0]);
      CellMeans(x, y);
      CellOrder(x, y, x);
      ValsMeans(specs[1..], a', b');
      hide CompareCell, CellBelow, CutCell;
      if x == y {
        if c :| 0 <= c < |specs[1..]| && BelowAt(specs[1..], a', b', c) {
          LaterColumn(specs, a, b, c + 1);
        }
        if c :| 0 <= c < |specs| && BelowAt(specs, a, b, c) {
          if c == 0 {
            CellSelf(x);
          } else {
            LaterColumn(specs, a, b, c);
          }
        }
      } else {
        if CellBelow(x, y) {
          assert BelowAt(specs, a, b, 0);
        }
        if c :| 0 <= c < |specs| && BelowAt(specs, a, b, c) {
          assert c == 0;
        }
      }
    }
  }

  lemma {:induction false} CellSelf(x: Cell)
    ensures !CellBelow(x, x)
  {
    CellMeans(x, x);
    CellOrder(x, x, x);
  }

  lemma {:induction false} LaterColumn(specs: seq<ColSpec>, a: seq<Cell>, b: seq<Cell>, c: nat)
    requires 0 < c < |specs| && KeyCell(specs, a, 0) == KeyCell(specs, b, 0)
    ensures BelowAt(specs, a, b, c) <==>
            BelowAt(specs[1..], if a == [] then [] else a[1..], if b == [] then [] else b[1..], c - 1)
  {
    var a', b' := if a == [] then [] else a[1..], if b == [] then [] else b[1..];
    KeyCellNext(specs, a, c);
    KeyCellNext(specs, b, c);
    forall j | 0 < j < c
      ensures KeyCell(specs, a, j) == KeyCell(specs[1..], a', j - 1) && KeyCell(specs, b, j) == KeyCell(specs[1..], b', j - 1)
    {
      KeyCellNext(specs, a, j);
      KeyCellNext(specs, b, j);
    }
    hide KeyCell, CellBelow;
    if BelowAt(specs[1..], a', b', c - 1) {
      forall j | 0 <= j < c
        ensures KeyCell(specs, a, j) == KeyCell(specs, b, j)
      {
        if j > 0 {
          assert KeyCell(specs[1..], a', j - 1) == KeyCell(specs[1..], b', j - 1);
        }
      }
    }
    if BelowAt(specs, a, b, c) {
      forall j | 0 <= j < c - 1
        ensures KeyCell(specs[1..], a', j) == KeyCell(specs[1..], b', j)
      {
        assert KeyCell(specs, a, j + 1) == KeyCell(specs, b, j + 1);
      }
    }
  }

  // ---------------------------------------------------------------- comparing bytes

  /** `memcmp` of the common part, then the lengths, of two length-prefixed strings. */
  function CompareVarchar(a: seq<byte>, b: seq<byte>): int
    requires |a| >= 2 && |b| >= 2
  {
    var la, lb := ReadLe(a[..2]), ReadLe(b[..2]);
    var c := MemCmp(a[2..], b[2..], if la < lb then la else lb);
    if c != 0 then c else Sign(la, lb)
  }

  function MemCmp(a: seq<byte>, b: seq<byte>, n: nat): int {
    if n == 0 || a == [] || b == [] then 0
    else if a[0] != b[0] then Sign(a[0], b[0])
    else MemCmp(a[1..], b[1..], n - 1)
  }

  /** One column of two keys, flags included. */
  function CompareColumn(spec: ColSpec, a: seq<byte>, b: seq<byte>): int
    requires |a| == |b| == 1 + spec.Size()
  {
    if a[0] != b[0] then (if a[0] < b[0] then -1 else 1)
    else if a[0] == 0 then 0
    else
      match spec
      case Fixed(_) => Sign(ReadSigned(a[1..]), ReadSigned(b[1..]))
      case Varchar(_) => CompareVarchar(a[1..], b[1..])
  }

  function CompareKeys(specs: seq<ColSpec>, a: seq<byte>, b: seq<byte>): int
    requires |a| == |b| == KeySize(specs)
  {
    if specs == [] then 0
    else
      var w := 1 + specs[0].Size();
      var c := CompareColumn(specs[0], a[..w], b[..w]);
      if c != 0 then c else CompareKeys(specs[1..], a[w..], b[w..])
  }

  /** The comparison as it is computed: one pass over the columns with a running offset. */
  method CompareKeysAt(specs: seq<ColSpec>, a: seq<byte>, b: seq<byte>) returns (cmp: int)
    requires |a| == |b| == KeySize(specs)
    ensures cmp == CompareKeys(specs, a, b)
  {
    var off := 0;
    for i := 0 to |specs|
      invariant 0 <= off <= |a| && |a| - off == KeySize(specs[i..])
      invariant CompareKeys(specs, a, b) == CompareKeys(specs[i..], a[off..], b[off..])
    {
      var s := specs[i];
      var w := 1 + s.Size();
      assert specs[i..][0] == s && specs[i..][1..] == specs[i + 1..];
      assert a[off..][..w] == a[off..off + w] && b[off..][..w] == b[off..off + w];
      assert a[off..][w..] == a[off + w..] && b[off..][w..] == b[off + w..];
      var c := CompareColumn(s, a[off..off + w], b[off..off + w]);
      if c != 0 {
        return c;
      }
      off := off + w;
    }
    assert specs[|specs|..] == [];
    return 0;
  }

  // ---------------------------------------------------------------- bytes order as values

  lemma {:induction false} EncodeCellSize(spec: ColSpec, v: Cell)
    requires Fits(spec, v)
    ensures |EncodeCell(spec, v)| == 1 + spec.Size()
  {
  }

  lemma {:induction false} EncodeKeySize(specs: seq<ColSpec>, vals: seq<Cell>)
    requires AllFit(specs, vals)
    ensures |EncodeKey(specs, vals)| == KeySize(specs)
  {
    if specs != [] {
      EncodeCellSize(specs[0], if vals == [] then Null else vals[0]);
      EncodeKeySize(specs[1..], if vals == [] then [] else vals[1..]);
    }
  }

  ghost predicate AllFit(specs: seq<ColSpec>, vals: seq<Cell>) {
    if specs == [] then true
    else
      && specs[0].Ok() && (vals == [] || Fits(specs[0], vals[0]))
      && AllFit(specs[1..], if vals == [] then [] else vals[1..])
  }

  lemma {:induction false} MemCmpStr(a: Name, b: Name, za: seq<byte>, zb: seq<byte>)
    ensures var n := if |a| < |b| then |a| else |b|;
            var c := MemCmp(a + za, b + zb, n);
            (if c != 0 then c else Sign(|a|, |b|)) == CompareStr(a, b)
    decreases |a|
  {
    if a != [] && b != [] {
      assert (a + za)[1..] == a[1..] + za && (b + zb)[1..] == b[1..] + zb;
      MemCmpStr(a[1..], b[1..], za, zb);
    }
  }

  lemma {:induction false} VarcharParts(m: nat, s: Name)
    requires 0 < m < TWO_16
    ensures var e, t := EncodeCell(Varchar(m), Str(s)), Cut(s, m);
            |e| == 3 + m && ReadLe(e[1..][..2]) == |t| && e[1..][2..] == t + Zeros(m - |t|)
  {
    var e, t := EncodeCell(Varchar(m), Str(s)), Cut(s, m);
    assert e[1..][..2] == PutLe(|t|, 2);
    assert e[1..][2..] == t + Zeros(m - |t|);
    Widths();
    ReadPutLe(|t|, 2);
  }

  lemma {:induction false} ColumnOrder(spec: ColSpec, x: Cell, y: Cell)
    requires spec.Ok() && Fits(spec, x) && Fits(spec, y)
    ensures |EncodeCell(spec, x)| == |EncodeCell(spec, y)| == 1 + spec.Size()
    ensures CompareColumn(spec, EncodeCell(spec, x), EncodeCell(spec, y)) == CompareCell(CutCell(spec, x), CutCell(spec, y))
  {
    EncodeCellSize(spec, x);
    EncodeCellSize(spec, y);
    match (x, y)
    case (Int(m), Int(n)) =>
      SignedRoundTrip(m, spec.width);
      SignedRoundTrip(n, spec.width);
      assert EncodeCell(spec, x)[1..] == PutSigned(m, spec.width) && EncodeCell(spec, y)[1..] == PutSigned(n, spec.width);
    case (Str(s), Str(t)) =>
      VarcharParts(spec.maxLen, s);
      VarcharParts(spec.maxLen, t);
      var a, b := Cut(s, spec.maxLen), Cut(t, spec.maxLen);
      MemCmpStr(a, b, Zeros(spec.maxLen - |a|), Zeros(spec.maxLen - |b|));
    case _ =>
  }

  /** Comparing the encoded keys gives the order of the values they encode. */
  lemma {:induction false} KeyOrder(specs: seq<ColSpec>, a: seq<Cell>, b: seq<Cell>)
    requires AllFit(specs, a) && AllFit(specs, b)
    ensures |EncodeKey(specs, a)| == |EncodeKey(specs, b)| == KeySize(specs)
    ensures CompareKeys(specs, EncodeKey(specs, a), EncodeKey(specs, b)) == CompareVals(specs, a, b)
  {
    EncodeKeySize(specs, a);
    EncodeKeySize(specs, b);
    if specs != [] {
      var x, y := if a == [] then Null else a[0], if b == [] then Null else b[0];
      var a', b' := if a == [] then [] else a[1..], if b == [] then [] else b[1..];
      var w := 1 + specs[0].Size();
      ColumnOrder(specs[0], x, y);
      KeyOrder(specs[1..], a', b');
      assert EncodeKey(specs, a)[..w] == EncodeCell(specs[0], x) && EncodeKey(specs, b)[..w] == EncodeCell(specs[0], y);
      assert EncodeKey(specs, a)[w..] == EncodeKey(specs[1..], a') && EncodeKey(specs, b)[w..] == EncodeKey(specs[1..], b');
    }
  }

  // ---------------------------------------------------------------- the order is total

  lemma {:induction false} StrOrder(a: Name, b: Name, c: Name)
    ensures CompareStr(a, b) < 0 <==> CompareStr(b, a) > 0
    ensures CompareStr(a, b) == 0 <==> a == b
    ensures CompareStr(a, b) <= 0 && CompareStr(b, c) <= 0 ==> CompareStr(a, c) <= 0
    decreases |a| + |b| + |c|
  {
    if a != [] && b != [] {
      StrOrder(a[1..], b[1..], if c == [] then [] else c[1..]);
      assert a[0] == b[0] && a[1..] == b[1..] ==> a == b by { assert a == [a[0]] + a[1..] && b == [b[0]] + b[1..]; }
    }
  }

  lemma {:induction false} CellOrder(a: Cell, b: Cell, c: Cell)
    ensures CompareCell(a, b) < 0 <==> CompareCell(b, a) > 0
    ensures CompareCell(a, b) == 0 <==> a == b
    ensures CompareCell(a, b) <= 0 && CompareCell(b, c) <= 0 ==> CompareCell(a, c) <= 0
  {
    if a.Str? && b.Str? {
      StrOrder(a.s, b.s, if c.Str? then c.s else []);
    }
  }

  lemma {:induction false} ValsOrder(specs: seq<ColSpec>, a: seq<Cell>, b: seq<Cell>, c: seq<Cell>)
    ensures CompareVals(specs, a, b) < 0 <==> CompareVals(specs, b, a) > 0
    ensures CompareVals(specs, a, b) <= 0 && CompareVals(specs, b, c) <= 0 ==> CompareVals(specs, a, c) <= 0
  {
    if specs != [] {
      var x, y, z := if a == [] then Null else a[0], if b == [] then Null else b[0], if c == [] then Null else c[0];
      var x', y', z' := CutCell(specs[0], x), CutCell(specs[0], y), CutCell(specs[0], z);
      CellOrder(x', y', z');
      CellOrder(y', z', x');
      CellOrder(y', x', z');
      CellOrder(x', z', y');
      ValsOrder(specs[1..], if a == [] then [] else a[1..], if b == [] then [] else b[1..], if c == [] then [] else c[1..]);
    }
  }

  /** The comparison that an index on these columns uses is one its trees may rely on. */
  lemma {:induction false} KeyOrderIsTotal(specs: seq<ColSpec>)
    ensures TotalOrder((a: seq<Cell>, b: seq<Cell>) => CompareVals(specs, a, b))
  {
    forall a: seq<Cell>, b: seq<Cell>
      ensures CompareVals(specs, a, b) < 0 <==> CompareVals(specs, b, a) > 0
    {
      ValsOrder(specs, a, b, a);
    }
    forall a: seq<Cell>, b: seq<Cell>, c: seq<Cell> | CompareVals(specs, a, b) <= 0 && CompareVals(specs, b, c) <= 0
      ensures CompareVals(specs, a, c) <= 0
    {
      ValsOrder(specs, a, b, c);
    }
  }

  // ---------------------------------------------------------------- layout of a page

  const PAGE_PAYLOAD: nat := 8192 - 24
  const INDEX_HEADER: nat := 8

  /** Entries that a page holds for keys of the given size. */
  function NodeCapacity(keySize: nat): (n: nat) {
    var n := (PAGE_PAYLOAD - INDEX_HEADER - 8) / (keySize + 8);
    if n > 65535 then 65535 else n
  }

  lemma Grows(n: nat, d: nat)
    requires n >= 1000 && d >= 9
    ensures n * d >= 9000
  {
    assert n * d >= 1000 * d;
  }

  /** A full leaf (header, sibling, entries) and a full inner node (header, one child more than keys) both fit the
      payload; a page holds at least one entry exactly when the key leaves room for it. */
  lemma CapacityFits(keySize: nat)
    requires keySize > 0
    ensures var n := NodeCapacity(keySize);
            && INDEX_HEADER + 8 + n * (keySize + 8) <= PAGE_PAYLOAD
            && INDEX_HEADER + (n + 1) * 8 + n * keySize <= PAGE_PAYLOAD
            && (n >= 1 <==> INDEX_HEADER + 8 + keySize + 8 <= PAGE_PAYLOAD)
            && n < 1000
  {
    var avail, d := PAGE_PAYLOAD - INDEX_HEADER - 8, keySize + 8;
    var n := avail / d;
    assert avail == n * d + avail % d;
    assert n * d <= avail;
    if n >= 1000 {
      Grows(n, d);
    }
    assert n * (keySize + 8) == n * keySize + n * 8;
  }
}
